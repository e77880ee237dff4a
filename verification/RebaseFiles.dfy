/** rebaseEx on changeset files (geodiff/api.go): what is written, read back, concatenated and applied. */
module RebaseFiles {
  import opened Values
  import opened Rows
  import opened Diff
  import opened Invert
  import opened KeyMapping
  import opened RebaseRules
  import opened RebaseKeys
  import opened RebaseMerge
  import opened RebaseDriver
  import opened RebaseOutput
  import opened RebaseWidth
  import opened Apply
  import opened ApplySkips
  import opened Pipeline
  import opened Wire
  import opened Reader
  import opened Writer
  import opened Elision

  // ----- Writing and reading whole files -----

  /** Entries that can be written and read back under the tables of `s`, none of them nameless. */
  ghost predicate Storable(s: Schema, es: seq<Entry>) {
    && OverSchema(s, es) && [] !in s
    && forall i | 0 <= i < |es| :: Plainly(es[i]) && WritableTable(es[i].table)
  }

  lemma StorableReadsBack(s: Schema, es: seq<Entry>)
    requires Storable(s, es)
    ensures AllWritable(es) && AllWritten(es) && CountsAgree(NO_TABLE, [], es) && Read(Bytes(es)) == Contents(es, true)
  {
    OneSchemaReadsBack(s, es);
  }

  lemma EmptyFile()
    ensures AllWritable([]) && Bytes([]) == [] && Read([]) == Contents([], true)
  {
    ElideWritable([], []);
    assert Elide([], []) == [] && RecordCodes([]) == [];
  }

  /** A file of entries is empty exactly when there are none. */
  lemma EmptyFileIff(s: Schema, es: seq<Entry>)
    requires Storable(s, es)
    ensures AllWritable(es) && (Bytes(es) == [] <==> es == [])
  {
    StorableReadsBack(s, es);
    EmptyFile();
  }

  /** One entry more is still a beginning of a list that fits its headers. */
  lemma OneMoreStorable(es: seq<Entry>, n: nat)
    requires CountsAgree(NO_TABLE, [], es) && n < |es|
    ensures CountsAgree(NO_TABLE, [], es[..n] + [es[n]]) && es[..n + 1] == es[..n] + [es[n]]
  {
    assert es == es[..n + 1] + es[n + 1..];
    assert es[..n + 1] == es[..n] + [es[n]];
    CountsOfPrefix(NO_TABLE, [], es[..n + 1], es[n + 1..]);
  }

  /** The next entry of a storable list can be emitted. */
  lemma NextStorable(s: Schema, es: seq<Entry>, n: nat)
    requires Storable(s, es) && n < |es|
    ensures CountsAgree(NO_TABLE, [], es[..n] + [es[n]]) && es[..n + 1] == es[..n] + [es[n]]
    ensures WritableEntry(es[n]) && WritableTable(es[n].table)
  {
    StorableReadsBack(s, es);
    OneMoreStorable(es, n);
  }

  /** A header before the first entry of each table; the entries come table by table. */
  method WriteFile(ghost s: Schema, es: seq<Entry>) returns (file: seq<byte>)
    requires Storable(s, es) && TableByTable(es)
    ensures AllWritable(es) && file == Bytes(es) && Read(file) == Contents(es, true)
    ensures file == [] <==> es == []
  {
    StorableReadsBack(s, es);
    EmptyFileIff(s, es);
    EmptyFile();
    var w := new ChangesetWriter();
    var last := [];
    for n := 0 to |es|
      invariant fresh(w) && fresh(w.tmp)
      invariant Wrote(w, es[..n]) && last == LastName([], es[..n])
    {
      NextStorable(s, es, n);
      var ok := Emit(w, es[n], last, es[..n]);
      last := es[n].table.name;
    }
    assert es[..|es|] == es;
    file := w.out;
  }

  /** The entries up to the end of the file or the first error. */
  method ReadFile(file: seq<byte>) returns (es: seq<Entry>, complete: bool)
    ensures Contents(es, complete) == Read(file)
  {
    var reader := new ChangesetReader(file);
    es := [];
    ghost var all := Read(file);
    while true
      invariant reader.Valid() && reader.buf == file && fresh(reader)
      invariant Left(all, es, ReadAll(file, reader.offset, reader.currentTable))
      decreases |file| - reader.offset
    {
      var next := reader.NextEntry();
      match next {
        case Malformed =>
          return es, false;
        case EndOfFile =>
          NothingLeft(all, es);
          return es, true;
        case Found(e) =>
          AssociateEntries(es, [e], ReadAll(file, reader.offset, reader.currentTable).entries);
          es := es + [e];
      }
    }
  }

  /** applyChangesetEx: an empty file is not handed to the driver. */
  method ApplyFile(ghost s: Schema, driver: SqliteDriver, file: seq<byte>) returns (r: Result)
    requires OverSchema(s, Read(file).entries)
    modifies driver`db
    ensures if file == [] then r == Success && driver.db == old(driver.db)
            else (driver.db, r) == ApplyResult(driver.env, old(driver.db), Read(file).entries, !Read(file).complete)
  {
    var reader := new ChangesetReader(file);
    if reader.IsEmpty() {
      return Success;
    }
    var es, complete := ReadFile(file);
    ghost var attempts;
    r, attempts := driver.ApplyChangeset(s, es, !complete);
  }

  lemma ReadIsStorable(s: Schema, file: seq<byte>)
    requires OverSchema(s, Read(file).entries) && [] !in s
    ensures Storable(s, Read(file).entries)
  {
    ReadIsWritable(file, 0, NO_TABLE);
    forall i | 0 <= i < |Read(file).entries| ensures Plainly(Read(file).entries[i]) && WritableTable(Read(file).entries[i].table) {
      assert FromReader(Read(file).entries[i]);
    }
  }

  // ----- Rebase -----

  datatype FileRebase = RebasedFile(file: seq<byte>, conflicts: seq<ConflictFeature>) | CannotRebaseFile(error: RebaseError)

  lemma RebasedIsStorable(s: Schema, theirs: seq<Entry>, ours: seq<Entry>, visit: Visit, maps: KeyMaps,
                          out: seq<Entry>, src: seq<nat>, conflicts: seq<ConflictFeature>)
    requires Storable(s, theirs) && Storable(s, ours) && AllKeyed(theirs) && LeavesRoom(theirs, |ours|)
    requires RebasedFrom(theirs, ours, visit, maps, out, src, conflicts)
    ensures Storable(s, out)
  {
    RebasedOver(s, ours, InfoFor(theirs), maps, out, src);
    OutputIsWritable(theirs, ours, VisitOrders(visit, InfoFor(theirs), ours), maps, out, src);
  }

  /** Parses theirs as far as it can be read; an entry without key column is met before the end is missed. */
  method ParseFails(theirs: seq<Entry>) returns (error: RebaseError)
    requires Shaped(theirs)
    ensures error == if forall i | 0 <= i < |theirs| :: HasKey(theirs[i].table) then Unreadable else NoPrimaryKey
  {
    var dbInfo := new DatabaseRebaseInfo();
    var parsed := dbInfo.ParseOldChangeset(theirs);
    error := if parsed == Done then Unreadable else parsed.error;
  }

  /** Rebase: an empty side passes the other file through. */
  method RebaseFile(ghost s: Schema, baseTheirs: seq<byte>, baseOurs: seq<byte>, visit: Visit)
    returns (r: FileRebase, ghost maps: KeyMaps, ghost src: seq<nat>)
    requires OverSchema(s, Read(baseTheirs).entries) && OverSchema(s, Read(baseOurs).entries) && [] !in s
    requires ValidVisit(visit) && LeavesRoom(Read(baseTheirs).entries, |Read(baseOurs).entries|)
    ensures baseTheirs == [] ==> r == RebasedFile(baseOurs, [])
    ensures baseTheirs != [] && baseOurs == [] ==> r == RebasedFile(baseTheirs, [])
    ensures baseTheirs != [] && baseOurs != [] ==>
              var theirs, ours := Read(baseTheirs), Read(baseOurs);
              && (r.RebasedFile? <==> theirs.complete && AllKeyed(theirs.entries) && ours.complete)
              && (r.RebasedFile? ==>
                    && Read(r.file).complete && Storable(s, Read(r.file).entries) && (r.file == [] <==> Read(r.file).entries == [])
                    && RebasedFrom(theirs.entries, ours.entries, visit, maps, Read(r.file).entries, src, r.conflicts))
  {
    maps, src := map[], [];
    var readerTheirs := new ChangesetReader(baseTheirs);
    if readerTheirs.IsEmpty() {
      return RebasedFile(baseOurs, []), maps, src;
    }
    var readerOurs := new ChangesetReader(baseOurs);
    if readerOurs.IsEmpty() {
      return RebasedFile(baseTheirs, []), maps, src;
    }
    var theirs, complete := ReadFile(baseTheirs);
    ReadIsStorable(s, baseTheirs);
    if !complete {
      var error := ParseFails(theirs);
      return CannotRebaseFile(error), maps, src;
    }
    var ours, oursComplete := ReadFile(baseOurs);
    ReadIsStorable(s, baseOurs);
    var rebased;
    rebased, maps, src := RebaseEntries(s, theirs, ours, visit);
    if rebased.RebaseFailed? {
      return CannotRebaseFile(rebased.error), maps, src;
    }
    if !oursComplete {
      return CannotRebaseFile(Unreadable), maps, src;
    }
    RebasedIsStorable(s, theirs, ours, visit, maps, rebased.entries, src, rebased.conflicts);
    var file := WriteFile(s, rebased.entries);
    r := RebasedFile(file, rebased.conflicts);
  }

  // ----- The concatenation -----

  /** The three changesets of the last situation, one after the other. */
  lemma ThreeEntries(a: seq<byte>, b: seq<byte>, c: seq<byte>)
    ensures Entries([a, b, c]) == Read(a).entries + Read(b).entries + Read(c).entries
    ensures AllComplete([a, b, c]) <==> Read(a).complete && Read(b).complete && Read(c).complete
  {
    var inputs := [a, b, c];
    assert inputs[..2] == [a, b] && [a, b][..1] == [a] && [a][..0] == [];
    assert Entries([]) == [];
    assert Entries([a]) == Entries([]) + Read(a).entries == Read(a).entries;
    assert Entries([a, b]) == Entries([a]) + Read(b).entries;
    assert forall k | 0 <= k < 3 :: inputs[k] == if k == 0 then a else if k == 1 then b else c;
    if Read(a).complete && Read(b).complete && Read(c).complete {
      assert AllComplete(inputs);
    }
    if AllComplete(inputs) {
      assert Read(inputs[0]).complete && Read(inputs[1]).complete && Read(inputs[2]).complete;
    }
  }

  /** Inverts ours, appends theirs and the rebased changeset, and applies the result. */
  method ConcatAndApply(ghost s: Schema, driver: SqliteDriver, base2modified: seq<byte>, base2theirs: seq<byte>, theirs2final: seq<byte>)
    returns (r: Result)
    requires Storable(s, Read(base2modified).entries) && Storable(s, Read(base2theirs).entries) && Storable(s, Read(theirs2final).entries)
    requires Read(base2modified).complete && Read(base2theirs).complete && Read(theirs2final).complete
    requires Read(base2modified).entries != []
    modifies driver`db
    ensures (driver.db, r) == ApplyResult(driver.env, old(driver.db),
                                          InverseAll(Read(base2modified).entries) + Read(base2theirs).entries + Read(theirs2final).entries, false)
  {
    ghost var ours, theirs, out := Read(base2modified).entries, Read(base2theirs).entries, Read(theirs2final).entries;
    InverseIsStorable(s, ours);
    StorableReadsBack(s, InverseAll(ours));
    var modified2base := InvertChangeset(base2modified);
    ThreeEntries(modified2base.value, base2theirs, theirs2final);
    ConcatOver(s, InverseAll(ours), theirs, out);
    ConcatReadsBack(s, [modified2base.value, base2theirs, theirs2final]);
    var modified2final := ConcatChanges([modified2base.value, base2theirs, theirs2final]);
    EmptyFile();
    r := ApplyFile(s, driver, modified2final.value);
  }

  lemma InverseIsStorable(s: Schema, es: seq<Entry>)
    requires Storable(s, es)
    ensures Storable(s, InverseAll(es))
  {
    InverseOver(s, es);
    forall i | 0 <= i < |es| ensures Plainly(InverseAll(es)[i]) && WritableTable(InverseAll(es)[i].table) {
      InverseWritable(es[i]);
    }
  }

  // ----- rebaseEx -----

  /** Tables the format can hold, none of them nameless. */
  ghost predicate TablesFit(s: Schema) {
    [] !in s && forall t | t in s :: WritableTable(s[t])
  }

  ghost predicate RowsFit(db: Db) {
    forall id | id in db :: WritableRow(db[id])
  }

  /** Rows and tables the format can hold, with room for new keys. */
  ghost predicate FitsFormat(s: Schema, base: Db, ours: Db, theirs: seq<Entry>) {
    TablesFit(s) && RowsFit(base) && RowsFit(ours) && LeavesRoom(theirs, |base| + |ours|)
  }

  ghost predicate Covers(s: Schema, base: Side) {
    forall t | t in Tracked(base) :: t in s && s[t] == Tracked(base)[t]
  }

  /** The changeset made from two databases can be stored, and has no more entries than they have rows. */
  lemma MadeIsStorable(s: Schema, base: Side, m: Db, made: seq<Entry>)
    requires ValidSide(base) && TablesFit(s) && RowsFit(base.rows) && RowsFit(m) && Covers(s, base)
    requires IsDiff(Tracked(base), base.rows, m, made)
    ensures Storable(s, made) && |made| <= |base.rows| + |m|
  {
    TrackedIsValid(base);
    DiffOverTables(base, s, m, made);
    DiffIsWritable(Tracked(base), base.rows, m, made);
    DiffSize(Tracked(base), base.rows, m, made);
    forall i | 0 <= i < |made| ensures WritableTable(made[i].table) {
      assert EntryOver(s, made[i]);
    }
  }

  ghost predicate SameTables(base: Side, modified: Side)
    requires ValidSide(base) && ValidSide(modified)
  {
    base.tables == modified.tables && forall t | t in base.tables :: base.schema[t].CompareWithBaseTypes(modified.schema[t])
  }

  /** `file` holds the changeset from the base to m. */
  ghost predicate HoldsDiff(s: Schema, base: Side, m: Db, file: seq<byte>) {
    && Read(file).complete && Storable(s, Read(file).entries) && (file == [] <==> Read(file).entries == [])
    && IsDiff(Tracked(base), base.rows, m, Read(file).entries)
    && |Read(file).entries| <= |base.rows| + |m|
  }

  /** createChangesetEx: the changeset between two databases, in a file. */
  method MakeFile(ghost s: Schema, base: Side, modified: Side) returns (error: Option<DiffError>, file: seq<byte>)
    requires ValidSide(base) && ValidSide(modified)
    requires TablesFit(s) && Covers(s, base) && RowsFit(base.rows) && RowsFit(modified.rows)
    ensures error.None? <==> SameTables(base, modified)
    ensures error.None? ==> HoldsDiff(s, base, modified.rows, file)
  {
    var made := CreateChangeset(base, modified);
    if made.DiffFailed? {
      return Some(made.error), [];
    }
    MadeIsStorable(s, base, modified.rows, made.entries);
    file := WriteFile(s, made.entries);
    error := None;
  }

  /** What a run of rebaseEx worked with: our changes, the key maps, the rebased entries and where they come from. */
  datatype Trail = Trail(toOurs: seq<Entry>, maps: KeyMaps, out: seq<Entry>, src: seq<nat>)

  /**
   What rebaseEx answers and leaves, on any input: it merges exactly when theirs
   is empty, or the databases can be compared, both files can be rebased, and
   the driver accepts the entries it is given.
   */
  ghost predicate RanEx(base: Side, mine: Side, env: Env, base2theirs: seq<byte>, visit: Visit, w: Trail, after: Db, r: MergeResult)
    requires ValidSide(base) && ValidSide(mine) && Shaped(Read(base2theirs).entries)
  {
    var theirs := Read(base2theirs);
    if base2theirs == [] then r == MergedWith([]) && after == mine.rows
    else if !SameTables(base, mine) then r.MergeFailed? && r.error.CannotDiff? && after == mine.rows
    else
      && IsDiff(Tracked(base), base.rows, mine.rows, w.toOurs)
      && if w.toOurs == [] then Answers(ApplyResult(env, mine.rows, theirs.entries, !theirs.complete), [], after, r)
         else RanBoth(env, mine.rows, theirs, visit, w, after, r)
  }

  /** The entries handed to the driver when both sides have changes. */
  ghost function Whole(toOurs: seq<Entry>, theirs: seq<Entry>, out: seq<Entry>): (es: seq<Entry>)
    requires Shaped(toOurs)
  {
    InverseAll(toOurs) + theirs + out
  }

  ghost predicate RanBoth(env: Env, ours: Db, theirs: Contents, visit: Visit, w: Trail, after: Db, r: MergeResult)
    requires Shaped(w.toOurs) && Shaped(theirs.entries)
  {
    if !theirs.complete || !AllKeyed(theirs.entries) then r.MergeFailed? && r.error.CannotRebase? && after == ours
    else
      && Shaped(Whole(w.toOurs, theirs.entries, w.out))
      && exists conflicts :: RanWith(env, ours, theirs.entries, visit, w, conflicts, after, r)
  }

  ghost predicate RanWith(env: Env, ours: Db, theirs: seq<Entry>, visit: Visit, w: Trail, conflicts: seq<ConflictFeature>, after: Db, r: MergeResult)
    requires Shaped(w.toOurs) && Shaped(theirs) && AllKeyed(theirs) && Shaped(Whole(w.toOurs, theirs, w.out))
  {
    && RebasedFrom(theirs, w.toOurs, visit, w.maps, w.out, w.src, conflicts)
    && Answers(ApplyResult(env, ours, Whole(w.toOurs, theirs, w.out), false), conflicts, after, r)
  }

  /** When rebaseEx reports a merge, in one line for each way it can. */
  lemma ExSucceedsIff(base: Side, mine: Side, env: Env, base2theirs: seq<byte>, visit: Visit, w: Trail, after: Db, r: MergeResult)
    requires ValidSide(base) && ValidSide(mine) && Shaped(Read(base2theirs).entries) && base2theirs != []
    requires RanEx(base, mine, env, base2theirs, visit, w, after, r)
    ensures r.MergedWith? <==> SameTables(base, mine) && DriverTook(env, mine.rows, Read(base2theirs), w).Some?
    ensures r.MergedWith? ==> DriverTook(env, mine.rows, Read(base2theirs), w) == Some(after)
    ensures r.MergeFailed? ==> after == mine.rows
  {
  }

  /** What a call leaves that the driver accepted. */
  function TakenFrom(call: (Db, Result)): Option<Db> {
    if call.1 == Success then Some(call.0) else None
  }

  /** What the driver made of ours if it was called and accepted: theirs alone when ours has no changes, otherwise everything in one. */
  ghost function DriverTook(env: Env, ours: Db, theirs: Contents, w: Trail): Option<Db>
    requires Shaped(theirs.entries)
  {
    if w.toOurs == [] then TakenFrom(ApplyResult(env, ours, theirs.entries, !theirs.complete))
    else if !(theirs.complete && AllKeyed(theirs.entries) && Shaped(w.toOurs) && Shaped(Whole(w.toOurs, theirs.entries, w.out))) then None
    else TakenFrom(ApplyResult(env, ours, Whole(w.toOurs, theirs.entries, w.out), false))
  }

  /** Both files have changes. */
  method RebaseBoth(ghost s: Schema, ghost base: Side, ghost tables: seq<Name>, driver: SqliteDriver,
                    base2theirs: seq<byte>, base2modified: seq<byte>, visit: Visit, ghost theirs: Db)
    returns (r: MergeResult, ghost p: Plan, ghost w: Trail)
    requires ValidVisit(visit) && base2theirs != [] && base2modified != []
    requires OverSchema(s, Read(base2theirs).entries) && Storable(s, Read(base2modified).entries)
    requires Read(base2modified).complete && Read(base2modified).entries != []
    requires LeavesRoom(Read(base2theirs).entries, |Read(base2modified).entries|)
    requires IsDiff(Tracked(base), base.rows, driver.db, Read(base2modified).entries)
    modifies driver`db
    ensures r.MergeFailed? ==> driver.db == old(driver.db)
    ensures w.toOurs == Read(base2modified).entries && Shaped(Read(base2theirs).entries)
    ensures RanBoth(driver.env, old(driver.db), Read(base2theirs), visit, w, driver.db, r)
    ensures Read(base2theirs).complete ==>
              MergesInSetting(p, base, driver.env, tables, old(driver.db), theirs, Read(base2theirs).entries, visit, driver.db, r)
  {
    ghost var ours, toTheirs, toOurs := driver.db, Read(base2theirs).entries, Read(base2modified).entries;
    p := Plan(Sides(map[], map[], map[], map[], [], []), t => [], map[]);
    ReadIsStorable(s, base2theirs);
    var rebased;
    ghost var maps, src;
    rebased, maps, src := RebaseFile(s, base2theirs, base2modified, visit);
    w := Trail(toOurs, maps, [], src);
    if rebased.CannotRebaseFile? {
      r := MergeFailed(CannotRebase(rebased.error));
      UnkeyedMerges(p, base, driver.env, tables, ours, theirs, Read(base2theirs), visit, ours, r);
      return;
    }
    w := Trail(toOurs, maps, Read(rebased.file).entries, src);
    WholeOver(s, toOurs, toTheirs, w.out);
    p := WholeMerges(base, driver.env, tables, ours, theirs, toTheirs, visit, w, rebased.conflicts);
    var applied := ConcatAndApply(s, driver, base2modified, base2theirs, rebased.file);
    r := AsMerge(applied, rebased.conflicts);
    BothRan(driver.env, ours, Read(base2theirs), visit, w, rebased.conflicts, driver.db, applied, r);
  }

  lemma WholeOver(s: Schema, toOurs: seq<Entry>, theirs: seq<Entry>, out: seq<Entry>)
    requires OverSchema(s, toOurs) && OverSchema(s, theirs) && OverSchema(s, out)
    ensures Shaped(toOurs) && OverSchema(s, Whole(toOurs, theirs, out)) && Shaped(Whole(toOurs, theirs, out))
  {
    InverseOver(s, toOurs);
    ConcatOver(s, InverseAll(toOurs), theirs, out);
  }

  /** A file of theirs that cannot be rebased is not in the setting of a merge. */
  lemma UnkeyedMerges(p: Plan, base: Side, env: Env, tables: seq<Name>, ours: Db, theirs: Db, read: Contents, visit: Visit, after: Db, r: MergeResult)
    requires Shaped(read.entries) && !(read.complete && AllKeyed(read.entries))
    ensures read.complete ==> MergesInSetting(p, base, env, tables, ours, theirs, read.entries, visit, after, r)
  {
    if Setting(base, env, tables, ours, theirs, read.entries) {
      SettingIsKeyed(base, env, tables, ours, theirs, read.entries);
    }
  }

  lemma BothRan(env: Env, ours: Db, theirs: Contents, visit: Visit, w: Trail, conflicts: seq<ConflictFeature>, after: Db, result: Result, r: MergeResult)
    requires Shaped(w.toOurs) && Shaped(theirs.entries) && theirs.complete && AllKeyed(theirs.entries)
    requires Shaped(Whole(w.toOurs, theirs.entries, w.out))
    requires RebasedFrom(theirs.entries, w.toOurs, visit, w.maps, w.out, w.src, conflicts)
    requires (after, result) == ApplyResult(env, ours, Whole(w.toOurs, theirs.entries, w.out), false)
    requires r == if result.Success? then MergedWith(conflicts) else MergeFailed(CannotApply(result.error))
    ensures RanBoth(env, ours, theirs, visit, w, after, r) && (r.MergeFailed? ==> after == ours)
  {
    assert RanWith(env, ours, theirs.entries, visit, w, conflicts, after, r);
  }

  lemma WholeMerges(base: Side, env: Env, tables: seq<Name>, ours: Db, theirs: Db, toTheirs: seq<Entry>, visit: Visit, w: Trail, conflicts: seq<ConflictFeature>)
    returns (p: Plan)
    requires Shaped(toTheirs) && AllKeyed(toTheirs) && ValidVisit(visit) && IsDiff(Tracked(base), base.rows, ours, w.toOurs)
    requires RebasedFrom(toTheirs, w.toOurs, visit, w.maps, w.out, w.src, conflicts) && Shaped(Whole(w.toOurs, toTheirs, w.out))
    ensures var end := Final(env, ours, Whole(w.toOurs, toTheirs, w.out), conflicts);
            MergesInSetting(p, base, env, tables, ours, theirs, toTheirs, visit, end.0, end.1)
  {
    p := Plan(Sides(map[], map[], map[], map[], [], []), t => [], map[]);
    if Setting(base, env, tables, ours, theirs, toTheirs) {
      p := BothMerge(base, env, tables, ours, theirs, toTheirs, w.toOurs, visit, w.maps, w.out, w.src);
    }
  }

  lemma MergesNothing(base: Side, env: Env, tables: seq<Name>, ours: Db, theirs: Db, visit: Visit) returns (p: Plan)
    requires ValidVisit(visit)
    ensures Read([]) == Contents([], true)
    ensures MergesInSetting(p, base, env, tables, ours, theirs, [], visit, ours, MergedWith([]))
  {
    EmptyFile();
    p := Plan(Sides(map[], map[], map[], map[], [], []), t => [], map[]);
    if Setting(base, env, tables, ours, theirs, []) {
      p := FirstSituation(base, env, tables, ours, theirs, visit);
    }
  }

  lemma IncomparableMerges(p: Plan, base: Side, env: Env, tables: seq<Name>, ours: Db, theirs: Db, toTheirs: seq<Entry>, visit: Visit, after: Db, r: MergeResult)
    requires ValidSide(base) && ValidSide(Side(tables, env.schema, ours)) && !SameTables(base, Side(tables, env.schema, ours))
    ensures MergesInSetting(p, base, env, tables, ours, theirs, toTheirs, visit, after, r)
  {
  }

  lemma MergesTheirs(base: Side, env: Env, tables: seq<Name>, ours: Db, theirs: Db, read: Contents, visit: Visit) returns (p: Plan)
    requires ValidVisit(visit) && Shaped(read.entries) && IsDiff(Tracked(base), base.rows, ours, [])
    ensures read.complete ==>
              var end := ApplyResult(env, ours, read.entries, !read.complete);
              MergesInSetting(p, base, env, tables, ours, theirs, read.entries, visit, end.0, AsMerge(end.1, []))
  {
    p := Plan(Sides(map[], map[], map[], map[], [], []), t => [], map[]);
    if Setting(base, env, tables, ours, theirs, read.entries) {
      p := SecondSituation(base, env, tables, ours, theirs, read.entries, visit);
    }
  }

  lemma TheirsRan(base: Side, mine: Side, env: Env, base2theirs: seq<byte>, visit: Visit, w: Trail, after: Db, result: Result, r: MergeResult)
    requires ValidSide(base) && ValidSide(mine) && Shaped(Read(base2theirs).entries) && base2theirs != []
    requires SameTables(base, mine) && IsDiff(Tracked(base), base.rows, mine.rows, []) && w.toOurs == []
    requires (after, result) == ApplyResult(env, mine.rows, Read(base2theirs).entries, !Read(base2theirs).complete)
    requires r == if result.Success? then MergedWith([]) else MergeFailed(CannotApply(result.error))
    ensures RanEx(base, mine, env, base2theirs, visit, w, after, r) && (r.MergeFailed? ==> after == mine.rows)
  {
  }

  lemma BothRanEx(base: Side, mine: Side, env: Env, base2theirs: seq<byte>, visit: Visit, w: Trail, after: Db, r: MergeResult)
    requires ValidSide(base) && ValidSide(mine) && Shaped(Read(base2theirs).entries) && base2theirs != []
    requires SameTables(base, mine) && IsDiff(Tracked(base), base.rows, mine.rows, w.toOurs) && w.toOurs != []
    requires RanBoth(env, mine.rows, Read(base2theirs), visit, w, after, r)
    ensures RanEx(base, mine, env, base2theirs, visit, w, after, r)
  {
  }

  /**
   rebaseEx. On failure the database is untouched; in the setting of a merge,
   when theirs' file holds the changeset to theirs, it merges.
   */
  method RebaseEx(ghost s: Schema, base: Side, tables: seq<Name>, driver: SqliteDriver, base2theirs: seq<byte>,
                  visit: Visit, ghost theirs: Db)
    returns (r: MergeResult, ghost p: Plan, ghost w: Trail)
    requires ValidSide(base) && ValidSide(Side(tables, driver.env.schema, driver.db)) && ValidVisit(visit)
    requires OverSchema(s, Read(base2theirs).entries) && FitsFormat(s, base.rows, driver.db, Read(base2theirs).entries)
    requires Covers(s, base)
    modifies driver`db
    ensures r.MergeFailed? ==> driver.db == old(driver.db)
    ensures Shaped(Read(base2theirs).entries) &&
            RanEx(base, Side(tables, driver.env.schema, old(driver.db)), driver.env, base2theirs, visit, w, driver.db, r)
    ensures Read(base2theirs).complete ==>
              MergesInSetting(p, base, driver.env, tables, old(driver.db), theirs, Read(base2theirs).entries, visit, driver.db, r)
  {
    ghost var mine := Side(tables, driver.env.schema, driver.db);
    ReadIsWritten(base2theirs, 0, NO_TABLE);
    p, w := Plan(Sides(map[], map[], map[], map[], [], []), t => [], map[]), Trail([], map[], [], []);
    var reader := new ChangesetReader(base2theirs);
    if reader.IsEmpty() {
      p := MergesNothing(base, driver.env, tables, driver.db, theirs, visit);
      return MergedWith([]), p, w;
    }
    var error, base2modified := MakeFile(s, base, Side(tables, driver.env.schema, driver.db));
    if error.Some? {
      r := MergeFailed(CannotDiff(error.value));
      IncomparableMerges(p, base, driver.env, tables, driver.db, theirs, Read(base2theirs).entries, visit, driver.db, r);
      return;
    }
    if base2modified == [] {
      p := MergesTheirs(base, driver.env, tables, driver.db, theirs, Read(base2theirs), visit);
      var applied := ApplyFile(s, driver, base2theirs);
      r := AsMerge(applied, []);
      TheirsRan(base, mine, driver.env, base2theirs, visit, w, driver.db, applied, r);
    } else {
      r, p, w := RebaseBoth(s, base, tables, driver, base2theirs, base2modified, visit, theirs);
      BothRanEx(base, mine, driver.env, base2theirs, visit, w, driver.db, r);
    }
  }
}
