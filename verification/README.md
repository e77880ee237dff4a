# A verified model of go-geodiff

go-geodiff computes the difference between two SQLite databases as a changeset,
applies, inverts and concatenates changesets, and merges two diverged copies of
a database through a rebase. This Dafny project models that core and proves
what it is for:

- **Changesets as arrows between databases.** A database is a map from row
  identities (table and key) to rows; applying an entry strictly is what the
  INSERT, UPDATE and DELETE statements of the driver accept. Diff and apply are
  inverse to each other, the inverse of a diff is the reverse diff, and merging
  the diffs of a chain of databases is the diff of its end points
  (`Rows`, `TableSchemas`, `Diff`, `Invert`, `PkKey`, `Merge`, `Concat`,
  `Accumulator`).
- **Rebase, the three-way merge.** The three passes over maps updated in place
  are proved against rules that say what becomes of a key and of an entry; the
  rebased changeset applies strictly to theirs exactly when the new keys are
  free, and is then the diff from theirs to the cell-wise merge, with every
  lost edit reported once (`KeyMapping`, `KeyRoom`, `RebaseRules`,
  `RebaseRows`, `RebaseKeys`, `RebaseRenumbered`, `RebaseMerge`,
  `RebaseCanonical`, `RebaseApplies`, `RebaseRoom`, `RebaseWitness`,
  `RebaseConflicts`, `ConflictList`, `RebaseDriver`, `RebaseOutput`).
- **The whole merge.** `rebaseEx` and `RebaseDirect`, on the bytes of their
  changeset files, end in that merge exactly when the driver can apply the
  rebased changeset (`DriverMerge`, `Pipeline`, `RebaseWidth`, `RebaseFiles`,
  `RebaseStages`).
- **Apply with retries.** A savepoint, a first pass and a retry loop: the bound
  on retries, the account of every entry, rollback on failure, completeness, and
  exactly when colliding entries still apply (`Apply`, `ApplySkips`,
  `ApplyRows`, `RetryComplete`).
- **The binary format.** Varints, the writer and the reader, the round trip,
  the layout byte by byte, totality of the reader, and when leaving out repeated
  table headers is sound (`Varint`, `Wire`, `WireLayout`, `Writer`, `Reader`,
  `Elision`).
- **The envelope of a geometry.** The recursive walk over a WKB body accepts
  exactly the encodings of well-formed trees and computes the least box
  (`Doubles`, `Wkb`, `WkbGrammar`, `WkbLayout`, `Envelope`, `GpkgHeaders`,
  `GpkgLayout`, `WkbReader`, `WkbBox`).

Code that works by changing state is modelled by classes and loops and proved
against specification functions; the lemmas are about those functions.

The order in which Go visits a map is a parameter (a visiting order in the last
loop of the key mapping) or left open (any order of the diff's rows and of the
concatenated output). Doubles are their 64-bit patterns, strings are byte
sequences; integers are unbounded until a file is written, where they must fit
64 bits.

Three properties one might expect are false of the code, and the exact condition
is proved instead:

- The rebased changeset need not apply to theirs, for two reasons. The last loop
  of `findMappingForNewChangeset` visits unmapped inserts in map order, and a
  renumbered insert may take the number of one that was visited before and kept;
  and the rows of the base are not looked at when numbers are handed out. Let S
  be the number after theirs' greatest inserted key of a table (or 1), f the
  number S + (inserts we share with theirs), c the count of our other inserts in
  [S, f). Whatever the order, a changeset of ours that lists inserts first, as
  every diff does, applies strictly exactly when, in every table theirs touched,
  no other insert of ours lies in [f, f + c) and theirs has no row in [S, f + c)
  (`RebaseRoom.EveryVisitAppliesIff`). The driver defers an insert that meets a
  row, so for it a row of theirs in [S, f + c) does no harm if we deleted it
  (`DriverMerge.EveryVisitSucceedsIff`). `RebaseWitness` has an input that never
  applies, one where the order decides, and one that only the driver applies.
- The key string of a concatenation does not escape text, so it tells all rows
  of a table apart exactly when the key has at most one column
  (`PkKey.TellsApartIffOneKey`). The merge of a chain needs no more than that,
  or key parts without a closing bracket (`Concat.ConcatOfClearChain`).
- `Rebase` alone is not the merge when ours is empty: it copies base->theirs to
  its output, which applies to theirs exactly when it changes nothing
  (`Diff.DiffAppliesOnce`). `rebaseEx` and `RebaseDirect` handle that case
  before they call it, and their theorems include it.

## Model

| member | source | states |
|---|---|---|
| `Rows.ApplyAllIffPointwise` | driver/sqlite.go:692-823 | For a changeset that names each row once: applying INSERT, UPDATE and DELETE statements strictly in order reaches a database exactly when every entry on its own takes its row there and no other row differs |
| `Rows.StrictIsRowStep` | driver/sqlite.go:692-823 | A strictly applied entry that keeps its key changes exactly the row it names, fails exactly when its row does not allow it, and leaves a well-formed database |
| `Rows.StepsApply` | driver/sqlite.go:692-823 | Entries that name different rows and each apply to their row apply together |
| `Rows.OrderIrrelevant` | driver/sqlite.go:692-823 | Any permutation of a changeset that names each row once applies with the same result |
| `Diff.HandleInserted` | driver/sqlite.go:516-552 | The loop over missing rows gives one full-row INSERT (or, reversed, DELETE) for each row only one side has, in any visiting order |
| `Diff.CompareRows` | driver/sqlite.go:582-641 | The column loop finds an update exactly when the rows differ and keeps old values on key and changed columns, new values on changed columns only |
| `Diff.HandleUpdated` | driver/sqlite.go:582-641 | One canonical UPDATE for each row both sides have with different values, and nothing else |
| `Diff.DiffTable` | driver/sqlite.go:669-687 | The three queries of a table give exactly the canonical entry of every changed row: INSERT, then DELETE, then UPDATE entries |
| `Diff.CreateChangeset` | driver/sqlite.go:644-690 | Succeeds exactly when both sides list the same tables with comparable schemas; the result is then the diff: one canonical entry per changed row, table by table in listing order, inserts before deletions before updates |
| `TableSchemas.ComparableTables` | schema/table.go:197-231 | The looser comparison decides whether tables are accepted, and accepted tables have the same changeset header |
| `TableSchemas.ComparableIff` | schema/table.go:100-231 | Tables are comparable exactly when they differ in nothing but declared column types and the text form of the reference system |
| `Diff.DiffApplies` | driver/sqlite.go:516-641 | apply(B, diff(B, M)) = M, for every order of the entries |
| `Diff.DiffEmptyIff` | driver/sqlite.go:605-629 | The diff of two databases is empty exactly when they are equal |
| `Diff.DiffAppliesOnce` | driver/rebase.go:634-640 | A diff applies strictly to the database it leads to exactly when it changes nothing; so the changeset Rebase copies out for an empty ours does not apply to theirs |
| `Diff.DiffUnique` | driver/sqlite.go:516-641 | Two diffs of the same databases have the same entries |
| `Invert.InvertEntry` | changeset/utils.go:299-339 | Swapping the lists and repairing the key columns in place gives the inverse entry |
| `Invert.InvertUndoes` | changeset/utils.go:277-347 | For a changeset that names each row once, with full old keys and old values wherever there are new ones: if it takes B to M strictly, its inverse takes M to B strictly |
| `Invert.InvertDiff` | changeset/utils.go:277-347 | The inverse of diff(B, M) is a diff from M to B |
| `Invert.InverseTwice` | changeset/utils.go:323-339 | Inverting an entry twice gives it back, as written, exactly when no key column of an UPDATE has its value on the new side only |
| `Invert.InvertNeedsDistinctRows` | changeset/utils.go:280-344 | Entries keep their order, so a changeset that names a row twice need not be undone: a concrete INSERT then UPDATE whose inverse does not apply |
| `PkKey.BuildKey` | changeset/concat.go:21-62 | The string built part by part is the concatenation of one bracketed part per key column |
| `PkKey.ValueKeyInjective` | changeset/concat.go:31-58 | The part of a value determines the value, whatever the formatting of doubles; two doubles must be numbers that the formatter prints apart |
| `PkKey.SameIdSameString` | changeset/concat.go:21-62 | Entries that name the same row of a table have the same string |
| `PkKey.TellsApartIffOneKey` | changeset/concat.go:21-62 | The string tells all rows of a table apart (rows with double keys: as far as their formatting does) exactly when the key has at most one column |
| `PkKey.TwoKeysCollide` | changeset/concat.go:44-47 | With two key columns there are rows with different keys and equal strings, because text is not escaped |
| `PkKey.PlainKeysInjective` | changeset/concat.go:21-62 | For composite keys the string determines every key column as long as no key part contains the closing bracket (doubles: numbers printed apart) |
| `PkKey.PlainValues` | changeset/concat.go:31-58 | Integers, blobs and NULL never contain the closing bracket; text does exactly when one of its bytes is one |
| `Merge.MergeUpdate` | changeset/concat.go:82-132 | The column loop keeps the first old and the last new value, drops columns that end where they began, and reports whether anything is left |
| `Merge.MergeComposes` | changeset/concat.go:140-202 | If two entries take a row from r0 to r1 to r2, their merge takes it from r0 to r2, or both are dropped and r0 = r2; the unsupported case does not arise |
| `Merge.MergeCanonical` | changeset/concat.go:140-202 | Merging two canonical entries of a row gives the canonical entry between the end points, as written |
| `Merge.UnsupportedIff` | changeset/concat.go:140-147 | A pair of entries is unsupported exactly when no entries with its operations ever apply one after the other, whatever the row and their values |
| `Accumulator.Cell.MergeWith` | changeset/concat.go:140-202 | The entry changed in place holds, afterwards, what the merge rules say, and the outcome tells whether it is kept, dropped or unsupported |
| `Accumulator.Accumulator.Add` | changeset/concat.go:255-294 | One entry is recorded, merged into the entry of its row, or removed with it; no other recorded entry changes |
| `Accumulator.Accumulator.MergeInto` | changeset/concat.go:271-284 | The recorded entry of the row is merged in place or removed; no other recorded entry changes |
| `Accumulator.AddInput` | changeset/concat.go:233-294 | One input file after another accumulates the entries in reading order |
| `Accumulator.ConcatChangesets` | changeset/concat.go:222-313 | The output lists every accumulated entry exactly once, as written, in some order |
| `Accumulator.WriteAll` | changeset/concat.go:296-310 | Every recorded entry is written exactly once whatever order the map is visited in |
| `Concat.ConcatApplies` | changeset/concat.go:140-313 | Key-keeping entries that apply strictly one after another and whose rows the key string tells apart: the merged entries name each row once, reach the same state, and no pair was unsupported |
| `Concat.ClearKeysToldApart` | changeset/concat.go:21-62 | Entries over one schema are told apart by their key strings if each has a single key column or no closing bracket in its key parts |
| `Concat.ConcatOfChain` | changeset/concat.go:222-313 | If the key string tells the rows of a chain D0, D1, ..., Dn of diffs apart, merging them gives exactly the diff of D0 and Dn |
| `Concat.ConcatOfClearChain` | changeset/concat.go:222-313 | The same with a condition on the databases only: every key is a single column or has no closing bracket in its parts |
| `Concat.MergedMapCarries` | changeset/concat.go:255-294 | After every prefix the accumulated map carries the whole effect of the entries so far |
| `KeyMapping.MapKeepsInv` | driver/rebase.go:216-279 | Mapping one more entry keeps: renumbered keys are exactly our inserts theirs also inserted, dropped ones exactly our changes of rows theirs deleted, new keys distinct and without gaps |
| `KeyMapping.CollidesIffKeptInBlock` | driver/rebase.go:281-297 | Two of our inserts end up with one key exactly when a key that was kept lies in the block handed out |
| `KeyMapping.CollidesIffVisitedFirst` | driver/rebase.go:281-297 | For one given visiting order: two of our inserts collide exactly when an unmapped insert was visited, and kept, before the renumbering that takes its number |
| `KeyRoom.EveryOrderDistinctIff` | driver/rebase.go:191-299 | Told from theirs' and our inserted keys alone: our inserts get distinct keys in every visiting order exactly when no unmapped insert has a number between the first free one and the end of the block; the block then ends at the same number in every order |
| `KeyRoom.EarlyVisitCollides` | driver/rebase.go:281-297 | When an unmapped insert has such a number, any order that visits it first collides |
| `KeyMapping.AnyOrderIsSound` | driver/rebase.go:191-299 | For any visiting order the new keys are distinct, fill the block above theirs without gaps, and avoid everything theirs inserted |
| `KeyMapping.AscendingIsInjective` | driver/rebase.go:281-297 | In ascending order no two of our inserts end up with one key |
| `RebaseDriver.DatabaseRebaseInfo.ParseOldChangeset` | driver/rebase.go:149-185 | Records the inserted and deleted keys and the updated values of theirs by table; fails exactly when an entry has no key column |
| `RebaseDriver.RebaseMapping.AddPkeyMapping` | driver/rebase.go:64-70 | Maps one key of one table and nothing else |
| `RebaseDriver.RebaseMapping.AddUnmapped` | driver/rebase.go:262-266 | Records one unmapped insert of one table and nothing else |
| `RebaseDriver.InitialFreeIndices` | driver/rebase.go:198-208 | One free key per table theirs inserted into, just above max(0, greatest inserted key) |
| `RebaseDriver.DetectConflict` | driver/rebase.go:237-278 | One of our entries changes the mapping of its own table only, by the mapping rules; the missing-index error is not reached |
| `RebaseDriver.DetectConflicts` | driver/rebase.go:210-279 | After the first loop the maps of every table are those of the mapping rules; fails exactly when a touched table has an entry without key |
| `RebaseDriver.RenumberTable` | driver/rebase.go:284-297 | The last loop for one table ends in the cascade of the visited keys; the missing-index error is not reached |
| `RebaseDriver.FindMappingForNewChangeset` | driver/rebase.go:191-299 | For any visiting orders both loops together build exactly the key maps of the mapping and cascade rules |
| `RebaseDriver.GreatestKey` | driver/rebase.go:200-206 | The greatest key of a set, or 0 |
| `RebaseOutput.HandleInsert` | driver/rebase.go:305-332 | The handler gives the INSERT with all key columns set to the mapped key; the key lookup never fails |
| `RebaseOutput.HandleDelete` | driver/rebase.go:338-382 | Drops a DELETE of a row theirs deleted; otherwise writes it with theirs' new values as old values |
| `RebaseOutput.HandleUpdate` | driver/rebase.go:401-496 | Drops or rewrites an UPDATE and appends one conflict with exactly the opposed columns |
| `RebaseOutput.PatchColumns` | driver/rebase.go:453-482 | The column loop of an UPDATE: what is left of our values, the opposed columns in order, and whether a change remains |
| `RebaseOutput.ReportDeleted` | driver/rebase.go:419-443 | An UPDATE of a row theirs deleted is reported with every value of ours |
| `RebaseOutput.Handle` | driver/rebase.go:519-569 | An entry of a table theirs did not touch passes unchanged; others go through their handler |
| `RebaseOutput.PrepareNewChangeset` | driver/rebase.go:502-596 | The output holds the rewritten form of every surviving entry once, grouped by table in the order ours first names them, with the order within a table kept; the conflicts are those of the entries in order |
| `RebaseOutput.RebaseEntries` | driver/rebase.go:634-667 | The three passes build the key maps, the output and the conflicts of the rules; they fail exactly when an entry of theirs has no key column |
| `RebaseRenumbered.EntryFollows` | driver/rebase.go:305-496 | An UPDATE, DELETE or INSERT of ours on a row that is renumbered is rewritten to the new key and otherwise left as it is, and reports nothing |
| `RebaseRenumbered.RunFollows` | driver/rebase.go:484-490 | Ours may name a renumbered row any number of times: the rewritten entries all survive, report nothing, and make of the row under its new key what ours made of it under the old one |
| `RebaseRenumbered.TakenIsRenumbered` | driver/rebase.go:243-297 | An insert of ours under a number theirs inserted is renumbered in every visiting order, also when ours goes on to change or delete the row |
| `RebaseMerge.ChangeIsMerged` | driver/rebase.go:338-496 | Every rewritten UPDATE and DELETE applies to theirs' row and does its share of the cell-wise merge; dropped ones already have it |
| `RebaseMerge.InsertIsMoved` | driver/rebase.go:305-332 | Every rewritten INSERT is our row with only its key column changed to the mapped key |
| `RebaseMerge.OutputMerges` | driver/rebase.go:502-667 | With free keys the rebased changeset names each row once, applies strictly to theirs, and gives the three-way merge |
| `RebaseCanonical.ChangeIsCanonical` | driver/rebase.go:338-496 | Every UPDATE and DELETE of ours becomes exactly the entry a diff has between theirs' row and the merged row, or none when they are equal |
| `RebaseCanonical.OutputIsDiff` | driver/rebase.go:502-667 | With free keys the rebased changeset is, entry for entry, the diff from theirs to the three-way merge |
| `RebaseApplies.RebaseAppliesIff` | driver/rebase.go:191-299 | For one given visiting order, ours listing inserts first: the rebased changeset applies strictly to theirs exactly when the final keys of our inserts are distinct and theirs has no row in the block handed out |
| `RebaseRoom.EveryVisitAppliesIff` | driver/rebase.go:191-299 | Told from the two changesets and theirs, when ours lists the inserts of a table first, as every diff does: the rebased changeset applies strictly to theirs whatever the visiting orders exactly when, in every table theirs touched, neither an unmapped insert nor a row of theirs has a number that renumbering takes |
| `RebaseRoom.RoomFreesKeys` | driver/rebase.go:191-299 | With that room every visiting order leaves the keys free, so the merge theorem applies |
| `RebaseWitness.RowInTheWay` | driver/rebase.go:198-208 | Base holds key 5, both sides insert 4: the rebased changeset exists and in no order applies to theirs |
| `RebaseWitness.OrderDecides` | driver/rebase.go:281-297 | Theirs inserts 4, ours 4, 5 and 6: the result applies to theirs when 5 is visited before 6 and does not when 6 is visited before 5 |
| `RebaseWitness.DeferredInsert` | driver/sqlite.go:962-985 | Base holds 5, theirs inserts 4, we insert 4 and delete 5: in no order does the result apply strictly to theirs, and in every order the driver applies it |
| `RebaseApplies.AscendingKeysFree` | driver/rebase.go:198-297 | Ascending visits and base keys no greater than max(0, theirs' inserted keys) make the keys free |
| `RebaseApplies.MovedOnlyIfTaken` | driver/rebase.go:243-297 | A row of ours changes its key only if theirs has its number or it lies in the block handed out |
| `RebaseKeys.InfoKnows` | driver/rebase.go:149-185 | The record of theirs tells, for every key of a table, what became of the row between base and theirs |
| `RebaseKeys.TableKeys` | driver/rebase.go:191-299 | For canonical changesets the key maps built for a table are sound for any visiting order |
| `RebaseKeys.NumbersInOrder` | driver/rebase.go:222-240 | Taken numbers are replaced in the order of our entries: the first by the one after theirs' greatest inserted key, each further one by the next |
| `RebaseKeys.LastUpdateRecorded` | driver/rebase.go:172-182 | Of several UPDATEs of one row in theirs the last one is recorded |
| `RebaseConflicts.NoSilentLoss` | driver/rebase.go:388-496 | Every column one of our UPDATEs changed has exactly one fate: carried into the output, equal to theirs, reported with base, theirs and ours, or the exempt column |
| `RebaseConflicts.UpdateConflict` | driver/rebase.go:388-496 | The conflict of one UPDATE has an item, with base, theirs and ours, for each column both sides took to different values (or of a row theirs deleted), except column 4 of gpkg_contents, and no other item |
| `RebaseConflicts.NoOtherConflicts` | driver/rebase.go:388-496 | Every conflict item belongs to a column that one of our UPDATEs and theirs changed apart, with the three values |
| `ConflictList.EntryItems` | driver/rebase.go:388-496 | One UPDATE reports each column that must be reported exactly once, in column order, and has no conflict when there is none |
| `ConflictList.OneFeaturePerRow` | driver/rebase.go:401-496 | The conflicts come in the order of our entries, one for each entry that has any, and no row is reported twice |
| `Pipeline.RawConcatMerges` | geodiff/api.go:924-945 | Applied strictly to ours, the concatenation of inverse(base->ours), base->theirs and the rebased changeset leads to the three-way merge |
| `Pipeline.StagesMerge` | driver/rebase.go:701-849 | The three changesets of RebaseDirect lead strictly from ours to base, to theirs, to the merge |
| `Pipeline.MergeUnique` | geodiff/api.go:878-949 | Where our inserted rows go determines the merged database |
| `ApplySkips.StrictRunPasses` | driver/sqlite.go:825-985 | A changeset that applies strictly passes through the driver in one pass; rows of skipped tables stay as they were |
| `ApplyRows.PassConserves` | driver/sqlite.go:917-960 | A pass without failure balances every tracked row: rows after it, inserts pending and deletions made equal rows before and inserts read |
| `ApplyRows.DriverSucceedsIff` | driver/sqlite.go:901-1000 | With primary keys as the only constraint, and UPDATEs and DELETEs that match distinct rows, the call succeeds exactly when for every tracked row the row that was there and its inserts are at most one more than its deletions, whatever the order of the entries; otherwise it reports unresolved dependencies and changes nothing |
| `ApplyRows.DriverReaches` | driver/sqlite.go:901-1000 | Where it succeeds, every insert is a row, every other row is what its UPDATE or DELETE makes of it or as it was, and skipped tables are untouched |
| `DriverMerge.RebasedSucceedsIff` | driver/rebase.go:819-841 | On a database that holds theirs the driver applies the rebased changeset exactly when, in tracked tables, the new keys are distinct and a number handed out that theirs has is that of a row we deleted |
| `DriverMerge.RebasedMerges` | driver/rebase.go:819-841 | Where the driver succeeds it leaves the merge of the tracked tables: our inserts re-keyed, each in its own place, every other row merged cell by cell; skipped tables as before |
| `DriverMerge.EveryVisitSucceedsIff` | driver/rebase.go:191-299 | The driver's condition told from the two changesets, theirs and ours, for all visiting orders: in every tracked table theirs touched, renumbering takes no number of an unmapped insert, and none of a row that theirs has and we kept |
| `RebaseFiles.RebaseEx` | geodiff/api.go:878-949 | On changeset files: what it answers and leaves is, for every input, what its steps answer; any failure leaves the database untouched; when theirs' file holds the changeset to theirs, with comparable databases and only primary keys as constraints, it succeeds exactly when the new keys are clear, and then ends in the three-way merge with exactly the merge's conflicts, in all three situations |
| `RebaseFiles.ExSucceedsIff` | geodiff/api.go:891-949 | For any databases and any non-empty file of theirs: it reports a merge exactly when base and ours can be compared, the rebase (where ours has changes) did not fail, and the driver accepted the call, on theirs alone or on everything in one; the database is then what that call leaves |
| `RebaseFiles.RebaseFile` | driver/rebase.go:604-667 | On files: an empty side passes the other file through; otherwise it succeeds exactly when both files read to their ends and theirs has keys, and the file written reads back as the rebased changeset |
| `RebaseFiles.MakeFile` | geodiff/api.go:43-68 | Succeeds exactly when both databases list the same tables with comparable schemas; the file then reads to its end as the changeset between them |
| `RebaseFiles.ConcatAndApply` | geodiff/api.go:924-945 | Inverting one file, concatenating three and applying the result does to the database what applying the inverse, theirs and the rebased entries in one does |
| `RebaseFiles.ApplyFile` | geodiff/api.go:83-116 | An empty file is not applied; any other is applied as its entries, with a read failure if it breaks off |
| `RebaseFiles.WriteFile` | driver/sqlite.go:67-79 | A file with a header before the entries of each table reads back as the entries, and is empty exactly when there are none |
| `RebaseWidth.OutputIsWritable` | driver/rebase.go:191-596 | Rebased entries fit the format: if renumbering leaves room in 64 bits, so do their values |
| `RebaseStages.UndoAndApply` | driver/rebase.go:717-807 | By way of the files it writes: undoing ours and applying theirs succeeds on comparable databases and leaves theirs |
| `RebaseStages.RebaseDirect` | driver/rebase.go:701-849 | By way of the files it writes: what it answers and leaves is, for every input, what its stages answer; under the conditions of the merge it succeeds exactly when the new keys are clear, and then ends in the three-way merge with exactly its conflicts; a failure leaves the database as one of the stages left it, with no changeset half applied |
| `RebaseStages.DirectSucceedsIff` | driver/rebase.go:701-849 | For any three databases: it reports a merge exactly when both pairs can be compared and the driver accepted every stage that has changes; the database is then what the three stages leave |
| `Apply.SqliteDriver.ApplyOne` | driver/sqlite.go:825-863 | One entry is skipped, refused, applied, or reported as conflict or no change; the database changes only when it is applied |
| `Apply.SqliteDriver.ApplyPass` | driver/sqlite.go:917-960 | One pass over the entries, up to the first error |
| `Apply.SqliteDriver.RetryPending` | driver/sqlite.go:962-985 | The retry loop gives the result of repeated passes and tries at most n(n+1)/2 entries again |
| `Apply.SqliteDriver.ApplyChangeset` | driver/sqlite.go:901-1000 | The whole call, with at most n(n+1)/2 retries for n first-pass conflicts; every failure leaves the database as at the savepoint, and a changeset that cannot be read to its end always fails |
| `Apply.EntryFailsIff` | driver/sqlite.go:825-863 | An entry is skipped exactly when its table name starts with gpkg_ and is not gpkg_data_columns, and refused exactly when the database lacks a table of that name with as many columns and the same key |
| `Apply.PassFailsIff` | driver/sqlite.go:917-960 | A pass fails exactly when some entry is of a table in scope that the database does not have in that form |
| `Apply.SuccessAccounts` | driver/sqlite.go:901-1000 | On success every entry read was applied exactly once, in an order in which each step was accepted, or skipped as an untracked table |
| `Apply.LegalRunSucceeds` | driver/sqlite.go:917-960 | Entries that are accepted one after the other are applied without a retry |
| `RetryComplete.RetryIsComplete` | driver/sqlite.go:962-985 | If acceptance is monotone and a pending entry is always accepted or refused by a constraint, the loop applies all pending entries, in some order, exactly when some order of them is applicable, and otherwise reports unresolved dependencies |
| `RetryComplete.SteadyIsSettled` | driver/sqlite.go:962-985 | Pending entries that name different rows, and still match them, are always accepted or refused by a constraint |
| `RetryComplete.FirstPassIsSteady` | driver/sqlite.go:917-960 | For a changeset that names each row once, what the first pass leaves pending names different rows and still matches them |
| `RetryComplete.ApplySucceedsIff` | driver/sqlite.go:901-1000 | Under monotone acceptance the call succeeds exactly when the first pass counts no failure, some order of its conflicts is applicable, and the release accepts the state the loop ends in; otherwise the error says which of these failed |
| `Varint.GetVarint` | varint/varint.go:29-67 | The fast paths give, on every buffer and offset, the full decoding clamped to 32 bits, including the failures |
| `Varint.GetVarint64` | varint/varint.go:70-117 | The 9-byte case and the chunk loop compute the decoding on every buffer; the too-long error is never returned |
| `Varint.ReadNine` | varint/varint.go:93-99 | OR-ing the shifted chunks from the last to the first gives the 64-bit value |
| `Varint.PutVarint64` | varint/varint.go:128-171 | Writes exactly the encoding into the first bytes and leaves the rest of the buffer alone |
| `Varint.PutChunks` | varint/varint.go:153-170 | Filling a local buffer from the low end and turning it round gives the chunks high end first |
| `Varint.RoundTrip` | varint/varint.go:70-171 | Every 64-bit value decodes from its encoding, whatever bytes follow, with the exact byte count |
| `Varint.EncodeByte` | varint/varint.go:128-171 | Each byte written: 7 bits of the value, most significant first, the high bit set on all but the last; a ninth byte holds the lowest 8 bits |
| `Varint.EncodeSize` | varint/varint.go:128-171 | n bytes are enough exactly for values below 128 to the n, up to eight bytes; nine take the rest |
| `Varint.EncodeShortest` | varint/varint.go:128-171 | Whatever a buffer decodes to fits 64 bits, and no encoding of it is shorter than the one written |
| `Reader.ChangesetReader.NextEntry` | changeset/reader.go:59-102 | On every byte string the offset stays in the buffer and never goes back, an entry moves it forward, and the result, the offset and the current table are those of the format, also after an error |
| `Reader.ChangesetReader.ReadRowValues` | changeset/reader.go:155-219 | As many values as the current table has columns, or a failure at the offset where it was noticed |
| `Reader.ChangesetReader.ReadValue` | changeset/reader.go:161-216 | One value by its type byte; lengths are checked against the buffer |
| `Reader.ChangesetReader.ReadTableRecord` | changeset/reader.go:221-251 | A header of at most 65536 columns replaces the current table; a broken one leaves the key flags read so far under the old name |
| `Reader.ChangesetReader.ReadVarint` | changeset/reader.go:133-140 | A clamped 32-bit length moves the offset by its byte count |
| `Reader.ChangesetReader.ReadNullTerminatedString` | changeset/reader.go:142-153 | The bytes up to the next zero byte, or a failure at the end of the buffer |
| `Reader.ChangesetReader.Rewind` | changeset/reader.go:111-114 | Back to the start, without a current table |
| `Writer.ChangesetWriter.BeginTable` | changeset/writer.go:54-73 | Appends exactly the header and makes the table current |
| `Writer.ChangesetWriter.WriteRowValues` | changeset/writer.go:140-195 | Appends exactly the codes of the values; fails, writing nothing, exactly when their number is not the current column count |
| `Writer.ChangesetWriter.WriteEntry` | changeset/writer.go:76-99 | Appends exactly the entry's bytes; fails exactly when a used row is miscounted, leaving the bytes written before the mistake |
| `Writer.ChangesetWriter.WriteVarint` | changeset/writer.go:126-130 | Appends the encoding of the number cut to 32 bits |
| `Wire.RoundTrip` | changeset/writer.go:54-195 | Writing headers and matching entries and reading them back gives the same tables, operations and values in order and reaches the end without error |
| `Wire.ReadsValue` | changeset/reader.go:155-219 | A written value is read back wherever it stands, and reading stops right behind it |
| `Wire.ReadsEntry` | changeset/reader.go:74-96 | A written entry is read back under the current table |
| `Wire.ReadsHeader` | changeset/reader.go:221-251 | A written header is read back |
| `Wire.ReadIsWritable` | changeset/reader.go:59-219 | Whatever the reader accepts can be written and read back |
| `Wire.ReadEnds` | changeset/reader.go:59-102 | A buffer holds no more entries than bytes, so repeated reading ends |
| `WireLayout.EntryIff` | changeset/writer.go:76-99 | The bytes of an entry, number by number: 18, 23 or 9 for INSERT, UPDATE, DELETE, a zero, then the old values, then the new ones, that the operation has, each a type from 0 to 5 with its 8-byte word (high byte first) or sized bytes |
| `WireLayout.HeaderIff` | changeset/writer.go:54-73 | The bytes of a header, number by number: 84, the column count, one flag 0 or 1 for each column, the name, a zero |
| `WireLayout.FileIff` | changeset/writer.go:54-195 | A byte string is what is written for some records exactly when it has their layout |
| `WireLayout.LaidEntryIsRead` | changeset/reader.go:74-96 | Bytes 18, 23 or 9, any second byte and laid-out values are read as that INSERT, UPDATE or DELETE with those values |
| `WireLayout.LaidHeaderIsRead` | changeset/reader.go:70-73 | A laid-out header is read over and becomes the current table |
| `WireLayout.LaidFileIsRead` | changeset/reader.go:59-102 | A file with the layout of some records is read as their entries, each in the table of the header before it |
| `WireLayout.OtherBytesFail` | changeset/reader.go:69-100 | The first byte tells what a record is: 84 a header, 18, 23, 9 an INSERT, UPDATE, DELETE; any other first byte, and a value of a type above 5, is refused |
| `WireLayout.TooManyColumns` | changeset/reader.go:230-234 | A header with more than 65536 columns is refused |
| `WireLayout.AnyByteFlags` | changeset/reader.go:236-243 | Any byte but zero flags a key column |
| `Elision.ConcatChanges` | geodiff/api.go:407-456 | Succeeds exactly when there are at least two inputs, every input reads to its end and every entry fits the header it is written under; the output is the inputs' entries with headers at name changes |
| `Elision.InvertChangeset` | changeset/utils.go:277-347 | The same for the inverted entries of one file |
| `Elision.Emit` | geodiff/api.go:438-451 | A header is written exactly when the name changes; an entry is refused exactly when it does not fit the current header |
| `Elision.ElidedReads` | geodiff/api.go:425-456 | What reading the copied bytes gives: the same entries, each under the header it was written under |
| `Elision.ElisionSound` | geodiff/api.go:425-456 | Reading the copy gives the entries with their own tables exactly when neighbours of one name have one header |
| `Elision.OneSchemaIsConsistent` | geodiff/api.go:425-456 | Equal names meaning equal schemas and non-empty names are enough |
| `Elision.ConcatReadsBack` | geodiff/api.go:425-456 | Where a table name has one header and no table is nameless, the concatenation can be written and reads as the inputs' entries with their tables |
| `Elision.NamelessTableIsLost` | geodiff/api.go:425 | A table with an empty name never gets a header, so its entries cannot be written |
| `Elision.InvertingTwice` | changeset/utils.go:277-347 | For a file with headers exactly at name changes, inverting twice is byte-identical exactly when no UPDATE has a key value on the new side only |
| `Elision.InvertAndBack` | changeset/utils.go:277-347 | The inversion run twice on such a file, with the same condition |
| `WkbGrammar.ReadsExactlyGeometries` | driver/gpkg_functions.go:217-303 | The walk accepts a byte string exactly when it starts with the bytes of a well-formed geometry tree, and reads that tree and no more |
| `WkbGrammar.GeometryBuilt` | driver/gpkg_functions.go:217-303 | The bytes of a well-formed tree, with each node in its own byte order, are read as that tree |
| `WkbGrammar.GeometryTaken` | driver/gpkg_functions.go:217-303 | What is read is a well-formed tree and the bytes consumed are its bytes |
| `WkbLayout.ReadsExactlyFormed` | driver/gpkg_functions.go:175-353 | Type codes, dimensions, member rules and words of either byte order written out as numbers: a byte string is read as a tree exactly when the tree is well formed by these rules and the bytes are its bytes |
| `Wkb.TakeGeometry` | driver/gpkg_functions.go:217-303 | Reading a geometry ends on every byte string and takes at least five bytes |
| `WkbReader.WkbEnvelopeReader.ReadGeometry` | driver/gpkg_functions.go:217-303 | The recursive walk over the mutable buffer and byte order accepts, fails and consumes as the format says and widens the envelope by exactly the pairs of the tree |
| `WkbReader.WkbEnvelopeReader.PointList` | driver/gpkg_functions.go:331-353 | A counted list widens the envelope by its points, or by its arcs |
| `WkbReader.WkbEnvelopeReader.Points` | driver/gpkg_functions.go:314-327 | The length check is exact: reading fails exactly when the bytes do not suffice |
| `WkbReader.WkbEnvelopeReader.MemberList` | driver/gpkg_functions.go:256-267 | Members are read one after the other, each in the byte order it declares |
| `WkbReader.GpkgEnvelope.Add` | driver/gpkg_functions.go:105-119 | Each bound is widened by the comparison of doubles; NaN leaves it alone |
| `GpkgHeaders.ReadsExactlyHeaders` | driver/gpkg_functions.go:123-156 | A blob is accepted exactly when it starts with the bytes of a well-formed header, and the empty flag, the envelope and the size are those of that header |
| `GpkgHeaders.HeaderBuilt` | driver/gpkg_functions.go:123-156 | The bytes of a header, whatever follows them, read as that header, and the body starts right behind it |
| `GpkgLayout.HeaderByBytes` | driver/gpkg_functions.go:123-156 | By its bytes alone: 71, 80, 0, an envelope code up to 4 and 8, 40, 56 or 72 bytes are accepted, and the envelope is the first four doubles in the byte order of the flags |
| `WkbReader.BlobEnvelope` | driver/gpkg_functions.go:159-173 | The header's envelope if it has one, otherwise the box widened by the pairs of the tree, or the error |
| `Envelope.LeastBox` | driver/gpkg_functions.go:99-119 | The box around finite pairs is set exactly when there is one and each side is the extreme ordinate |
| `Envelope.BoundIsExtremeIff` | driver/gpkg_functions.go:99-119 | For ordinates that are numbers a side is right exactly when not all of them are the infinity the start value does not reach |
| `Doubles.LessIsNumeric` | driver/gpkg_functions.go:105-119 | The comparison of finite double patterns is that of the numbers they stand for |
| `Doubles.KindByBits` | driver/gpkg_functions.go:99-119 | Which patterns are NaNs, infinities and finite, by exponent and fraction bits |
| `WkbBox.WalkGivesLeastBox` | driver/gpkg_functions.go:159-353 | When its points are finite the box is set exactly when the tree has one, and is then the least box around all of them, at any depth and in any byte order: X is the first ordinate, Y the second, a point of NaNs only does not count, and an arc counts with the two points that bound it |

## Left out

- SQLite itself, SQL text, connections, files, temporary directories and copies of databases: queries are modelled by what they select, statements by what they do to rows, a savepoint by the database at that point.
- Type affinity and collation of SQLite columns: stored values are the values of the entry, compared for equality.
- Datetime columns, which the driver compares through STRFTIME: plain equality is used, for them as for all others.
- NaN and the sign of zero in value comparison: doubles are compared as bit patterns there.
- A NULL key value in an INSERT counts as a constraint conflict; SQLite's exceptions for such keys are not modelled.
- Other constraints than the primary key: an arbitrary predicate on database states in the apply model, absent in the theorems about the driver's merge.
- Dropping and recreating triggers around an apply, and deferred foreign keys except as a check on release.
- How declared column types, keys and reference systems are obtained from SQLite: a table's description is given.
- Input/output errors of readers and writers, contexts, loggers and table filters.
- JSON export, conflict files, base64 and hexadecimal helpers, and the summary of a changeset: formatting only.
- Composite and non-integer keys in the merge theorems: the rebase uses only the first key column, as an integer; the rules and handlers are modelled for any table, the merge theorem is for one integer key per table.
- Overflow of renumbered keys at the top of int64: keys are unbounded.
- The text Go prints for a double in a key string: a parameter. Only for rows with double keys is anything assumed of it, namely that different numbers are printed differently; NaN may be printed alike.
- Circular arcs: the two points that bound an arc are a parameter; floating-point trigonometry is not modelled.
- The error texts: an error is a constructor without its message.
- The buffer that `BeginTable` and `WriteEntry` write to is an unbounded byte sequence.
- RebaseFiles.RebaseEx: asks for tables with names, values that fit the format, numbers that stay within 64 bits when renumbered, and one header per table name; the code wraps or mixes up headers otherwise.
- RebaseFiles.RebaseFile: asks for the same, of the two files.
- RebaseFiles.MakeFile: asks for tables with names and values that fit the format.
- RebaseFiles.WriteFile: takes entries that come table by table, as the two writers of changesets produce them, and puts a header where the table changes.
- RebaseFiles.ApplyFile: asks for one header per table name.
- RebaseFiles.ConcatAndApply: asks for files that read to their ends under one schema, as its caller has them.
- Accumulator.Accumulator.Add: asks for an entry whose header is the one recorded for its table name; the code keeps the first header and reads the values of later entries by its columns, also where there are fewer.
- Accumulator.Accumulator.MergeInto: asks for the same.
- Accumulator.AddInput: asks for one header per table name, for the same reason.
- Accumulator.ConcatChangesets: asks for one header per table name, for the same reason.
- RebaseOutput.RebaseEntries: asks for one header per table name; the code reads theirs' recorded values by our columns.
- Apply.SqliteDriver.ApplyOne: asks for one header per table name; the code checks a name once and indexes later entries by the columns of the database.
- Apply.SqliteDriver.ApplyPass: asks for the same.
- Apply.SqliteDriver.RetryPending: asks for the same.
- Apply.SqliteDriver.ApplyChangeset: asks for the same.
- RebaseStages.RebaseDirect: asks for tables with names, values that fit the format and numbers that stay within 64 bits when renumbered.
- RebaseStages.UndoAndApply: asks for tables with names and values that fit the format.
- Invert.InvertUndoes: sufficient, not necessary; `Invert.InvertNeedsDistinctRows` shows why rows must be named once.
- RetryComplete.RetryIsComplete: takes as hypothesis that no pending entry is ever lost as a change without effect; `RetryComplete.SteadyIsSettled` supplies it for entries that name different rows, which is what a diff yields.
