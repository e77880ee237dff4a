/** Applying a changeset with retries (ApplyChangeset, driver/sqlite.go). */
module Apply {
  import opened Values
  import opened Rows
  import opened TableSchemas

  /** HasPrefix(name, "gpkg_") && name != "gpkg_data_columns" */
  predicate SkipGpkgTable(name: Name) {
    Ascii("gpkg_") <= name && name != Ascii("gpkg_data_columns")
  }

  /** The database behind the driver: its tables, the constraints a statement must satisfy, and those checked on release. */
  datatype Env = Env(schema: map<Name, TableSchema>, legal: Db -> bool, deferred: Db -> bool)

  datatype ApplyError =
    | NoSuchTable | WrongColumnCount | KeyMismatch
    | ReadFailed | UnresolvedDependencies | ConflictsEncountered(total: nat) | ReleaseFailed

  /** The checks made before the first entry of a table is applied. */
  function CheckTable(env: Env, t: ChangesetTable): Option<ApplyError> {
    if t.name !in env.schema || env.schema[t.name].columns == [] then Some(NoSuchTable)
    else if |env.schema[t.name].columns| != t.ColumnCount() then Some(WrongColumnCount)
    else if env.schema[t.name].Table().primaryKeys != t.primaryKeys then Some(KeyMismatch)
    else None
  }

  datatype Change = Changed(db: Db) | SkippedTable | Conflicted | Unchanged | Refused(error: ApplyError)

  /** One entry: its statement takes effect only if the database accepts the new state. */
  function ApplyChange(env: Env, db: Db, e: Entry): Change
    requires e.WellShaped()
  {
    if SkipGpkgTable(e.table.name) then SkippedTable
    else if CheckTable(env, e.table).Some? then Refused(CheckTable(env, e.table).value)
    else
      match Statement(db, e)
      case Applied(d) => if env.legal(d) then Changed(d) else Conflicted
      case ConstraintConflict => Conflicted
      case NoChange => Unchanged
  }

  /** A pass over a list of entries: the state reached, the entries to retry, and the failures counted. */
  datatype Pass = Pass(db: Db, pending: seq<Entry>, unrecoverable: nat, error: Option<ApplyError>)

  function Advance(env: Env, p: Pass, e: Entry): Pass
    requires e.WellShaped()
  {
    if p.error.Some? then p
    else
      match ApplyChange(env, p.db, e)
      case Changed(d) => p.(db := d)
      case SkippedTable => p
      case Conflicted => p.(pending := p.pending + [e])
      case Unchanged => p.(unrecoverable := p.unrecoverable + 1)
      case Refused(err) => p.(error := Some(err))
  }

  ghost function RunPass(env: Env, db: Db, es: seq<Entry>): (p: Pass)
    requires Shaped(es)
    ensures Shaped(p.pending) && |p.pending| <= |es|
  {
    if es == [] then Pass(db, [], 0, None)
    else Advance(env, RunPass(env, db, es[..|es| - 1]), es[|es| - 1])
  }

  datatype Retried = Finished(db: Db, unrecoverable: nat) | Stuck | Aborted(error: ApplyError)

  /** Passes over the pending entries until none is left or a pass resolves nothing. */
  ghost function Retry(env: Env, db: Db, pending: seq<Entry>, unrecoverable: nat): Retried
    requires Shaped(pending)
    decreases |pending|
  {
    if pending == [] then Finished(db, unrecoverable)
    else
      var p := RunPass(env, db, pending);
      if p.error.Some? then Aborted(p.error.value)
      else if |p.pending| == |pending| then Stuck
      else Retry(env, p.db, p.pending, unrecoverable + p.unrecoverable)
  }

  datatype Result = Success | Failure(error: ApplyError)

  /** The whole call: on any failure the database is the one at the savepoint. */
  ghost function ApplyResult(env: Env, db: Db, es: seq<Entry>, readFails: bool): (r: (Db, Result))
    requires Shaped(es)
    ensures r.1.Failure? ==> r.0 == db
  {
    AfterPass(env, db, RunPass(env, db, es), readFails)
  }

  /** What follows the first pass; `db` is the database at the savepoint. */
  ghost function AfterPass(env: Env, db: Db, p: Pass, readFails: bool): (r: (Db, Result))
    requires Shaped(p.pending)
    ensures r.1.Failure? ==> r.0 == db
  {
    if p.error.Some? then (db, Failure(p.error.value))
    else if readFails then (db, Failure(ReadFailed))
    else
      AfterRetries(env, db, Retry(env, p.db, p.pending, p.unrecoverable))
  }

  /** How the call ends: nothing counted as failed, and the release accepted. */
  ghost function AfterRetries(env: Env, db: Db, retried: Retried): (r: (Db, Result))
    ensures r.1.Failure? ==> r.0 == db
  {
    match retried
    case Aborted(err) => (db, Failure(err))
    case Stuck => (db, Failure(UnresolvedDependencies))
    case Finished(d, n) =>
      if n > 0 then (db, Failure(ConflictsEncountered(n)))
      else if !env.deferred(d) then (db, Failure(ReleaseFailed))
      else (d, Success)
  }

  // ----- The driver -----

  class SqliteDriver {
    const env: Env
    var db: Db

    constructor (env: Env, db: Db)
      ensures this.env == env && this.db == db
    {
      this.env, this.db := env, db;
    }

    /** Tables in `checked` passed their checks with an earlier entry. */
    ghost predicate Checked(s: Schema, checked: set<Name>)
      reads this
    {
      forall t | t in checked :: t in s && CheckTable(env, s[t]) == None
    }

    /** applyChange: the checks are made once per table. */
    method ApplyOne(ghost s: Schema, e: Entry, checked0: set<Name>) returns (c: Change, checked: set<Name>)
      requires EntryOver(s, e) && Checked(s, checked0)
      modifies this`db
      ensures c == ApplyChange(env, old(db), e)
      ensures db == if c.Changed? then c.db else old(db)
      ensures Checked(s, checked)
    {
      checked := checked0;
      if SkipGpkgTable(e.table.name) {
        return SkippedTable, checked;
      }
      if e.table.name !in checked {
        var bad := CheckTable(env, e.table);
        if bad.Some? {
          return Refused(bad.value), checked;
        }
        checked := checked + {e.table.name};
      }
      match Statement(db, e) {
        case Applied(d) =>
          if env.legal(d) {
            db := d;
            c := Changed(d);
          } else {
            c := Conflicted;
          }
        case ConstraintConflict => c := Conflicted;
        case NoChange => c := Unchanged;
      }
    }

    /** One pass; stops at the first error. */
    method ApplyPass(ghost s: Schema, entries: seq<Entry>, checked0: set<Name>)
      returns (pending: seq<Entry>, unrecoverable: nat, error: Option<ApplyError>, checked: set<Name>)
      requires OverSchema(s, entries) && Checked(s, checked0)
      modifies this`db
      ensures var p := RunPass(env, old(db), entries);
              && error == p.error
              && (error.None? ==> db == p.db && pending == p.pending && unrecoverable == p.unrecoverable)
      ensures OverSchema(s, pending) && Checked(s, checked)
    {
      pending, unrecoverable, error, checked := [], 0, None, checked0;
      for n := 0 to |entries|
        invariant Pass(db, pending, unrecoverable, None) == RunPass(env, old(db), entries[..n])
        invariant OverSchema(s, pending) && Checked(s, checked) && error == None
      {
        assert entries[..n + 1][..n] == entries[..n];
        var e := entries[n];
        var c;
        c, checked := ApplyOne(s, e, checked);
        match c {
          case Changed(_) =>
          case SkippedTable =>
          case Conflicted => pending := pending + [e];
          case Unchanged => unrecoverable := unrecoverable + 1;
          case Refused(err) =>
            error := Some(err);
            ErrorStays(env, old(db), entries, n + 1);
            return;
        }
      }
      assert entries[..|entries|] == entries;
    }

    /** Passes over the pending entries; `attempts` counts the entries tried again. */
    method RetryPending(ghost s: Schema, pending0: seq<Entry>, unrecoverable0: nat, checked0: set<Name>)
      returns (r: Retried, ghost attempts: nat)
      requires OverSchema(s, pending0) && Checked(s, checked0)
      modifies this`db
      ensures r == Retry(env, old(db), pending0, unrecoverable0)
      ensures r.Finished? ==> r.db == db
      ensures 2 * attempts <= |pending0| * (|pending0| + 1)
    {
      var pending, unrecoverable, checked := pending0, unrecoverable0, checked0;
      TriesAre(|pending0|);
      attempts := 0;
      while pending != []
        invariant OverSchema(s, pending) && Checked(s, checked)
        invariant Retry(env, db, pending, unrecoverable) == Retry(env, old(db), pending0, unrecoverable0)
        invariant attempts + Tries(|pending|) <= Tries(|pending0|)
        decreases |pending|
      {
        var newPending, failed, error;
        ghost var k := |pending|;
        RetryStep(env, db, pending, unrecoverable);
        newPending, failed, error, checked := ApplyPass(s, pending, checked);
        TriesLeft(|newPending|, k);
        attempts := attempts + k;
        if error.Some? {
          return Aborted(error.value), attempts;
        }
        if |newPending| == |pending| {
          return Stuck, attempts;
        }
        pending, unrecoverable := newPending, unrecoverable + failed;
      }
      r := Finished(db, unrecoverable);
    }

    /**
     Entries are what the reader yields before it ends or, with `readFails`,
     before it reports an error.
     */
    method ApplyChangeset(ghost s: Schema, entries: seq<Entry>, readFails: bool) returns (r: Result, ghost attempts: nat)
      requires OverSchema(s, entries)
      modifies this`db
      ensures (db, r) == ApplyResult(env, old(db), entries, readFails)
      ensures readFails || r.Failure? ==> db == old(db)
      ensures readFails ==> r.Failure?
      ensures var n := |RunPass(env, old(db), entries).pending|; 2 * attempts <= n * (n + 1)
    {
      var savepoint := db;
      attempts := 0;
      var pending, unrecoverable, error, checked := ApplyPass(s, entries, {});
      if error.Some? {
        db := savepoint;
        return Failure(error.value), 0;
      }
      if readFails {
        db := savepoint;
        return Failure(ReadFailed), 0;
      }
      var retried;
      retried, attempts := RetryPending(s, pending, unrecoverable, checked);
      r := Release(retried, savepoint);
    }

    /** Keeps the state reached or goes back to the savepoint. */
    method Release(retried: Retried, savepoint: Db) returns (r: Result)
      requires retried.Finished? ==> retried.db == db
      modifies this`db
      ensures (db, r) == AfterRetries(env, savepoint, retried)
    {
      match retried {
        case Aborted(err) => r := Failure(err);
        case Stuck => r := Failure(UnresolvedDependencies);
        case Finished(_, n) =>
          if n > 0 {
            r := Failure(ConflictsEncountered(n));
          } else if !env.deferred(db) {
            r := Failure(ReleaseFailed);
          } else {
            r := Success;
          }
      }
      if r != Success {
        db := savepoint;
      }
    }
  }

  lemma RetryStep(env: Env, db: Db, pending: seq<Entry>, unrecoverable: nat)
    requires Shaped(pending) && pending != []
    ensures var p, r := RunPass(env, db, pending), Retry(env, db, pending, unrecoverable);
            && (p.error.Some? ==> r == Aborted(p.error.value))
            && (p.error.None? && |p.pending| == |pending| ==> r == Stuck)
            && (p.error.None? && |p.pending| != |pending| ==> r == Retry(env, p.db, p.pending, unrecoverable + p.unrecoverable))
  {
  }

  /** The entries tried by passes over k, k - 1, ..., 1 of them. */
  ghost function Tries(k: nat): nat {
    if k == 0 then 0 else k + Tries(k - 1)
  }

  lemma {:induction false} TriesAre(k: nat)
    ensures 2 * Tries(k) == k * (k + 1)
  {
    if k > 0 {
      TriesAre(k - 1);
    }
  }

  /** A pass over k entries leaves enough tries for any smaller number of them. */
  lemma {:induction false} TriesLeft(j: nat, k: nat)
    ensures k <= Tries(k)
    ensures j < k ==> k + Tries(j) <= Tries(k)
    decreases k
  {
    if k > 0 {
      TriesLeft(j, k - 1);
    }
  }

  lemma {:induction false} ErrorStays(env: Env, db: Db, es: seq<Entry>, n: nat)
    requires Shaped(es) && n <= |es| && RunPass(env, db, es[..n]).error.Some?
    ensures RunPass(env, db, es).error == RunPass(env, db, es[..n]).error
    decreases |es|
  {
    if n == |es| {
      assert es[..n] == es;
    } else {
      var init := es[..|es| - 1];
      assert init[..n] == es[..n];
      ErrorStays(env, db, init, n);
    }
  }

  // ----- What makes a pass fail -----

  /** The database has the table, with as many columns and the same key. */
  ghost predicate KnowsTable(schema: map<Name, TableSchema>, t: ChangesetTable) {
    && t.name in schema
    && |schema[t.name].columns| == |t.primaryKeys| > 0
    && forall c | 0 <= c < |t.primaryKeys| :: schema[t.name].columns[c].isPrimaryKey == t.primaryKeys[c]
  }

  /** Tables whose names start with gpkg_ are none of the driver's business, bar gpkg_data_columns. */
  ghost predicate OutOfScope(name: Name) {
    |name| >= 5 && name[..5] == Ascii("gpkg_") && name != Ascii("gpkg_data_columns")
  }

  /** What becomes of one entry, by its table. */
  lemma EntryFailsIff(env: Env, db: Db, e: Entry)
    requires e.WellShaped()
    ensures ApplyChange(env, db, e).SkippedTable? <==> OutOfScope(e.table.name)
    ensures ApplyChange(env, db, e).Refused? <==> !OutOfScope(e.table.name) && !KnowsTable(env.schema, e.table)
  {
    if e.table.name in env.schema {
      assert env.schema[e.table.name].Table().primaryKeys == e.table.primaryKeys <==>
        |env.schema[e.table.name].columns| == |e.table.primaryKeys| &&
        forall c | 0 <= c < |e.table.primaryKeys| :: env.schema[e.table.name].columns[c].isPrimaryKey == e.table.primaryKeys[c];
    }
  }

  /** A pass fails exactly when some entry is of a table in scope that the database does not have in this form. */
  lemma {:induction false} PassFailsIff(env: Env, db: Db, es: seq<Entry>)
    requires Shaped(es)
    ensures RunPass(env, db, es).error.Some? <==>
              exists i :: 0 <= i < |es| && !OutOfScope(es[i].table.name) && !KnowsTable(env.schema, es[i].table)
    decreases |es|
  {
    if es != [] {
      var n := |es| - 1;
      PassFailsIff(env, db, es[..n]);
      EntryFailsIff(env, RunPass(env, db, es[..n]).db, es[n]);
      assert forall i | 0 <= i < n :: es[..n][i] == es[i];
    }
  }

  // ----- Every entry read is applied once or skipped -----

  /** Entries applied one after the other, each accepted by the database. */
  ghost function LegalRun(env: Env, db: Db, es: seq<Entry>): Option<Db>
    requires Shaped(es)
  {
    if es == [] then Some(db)
    else
      match LegalRun(env, db, es[..|es| - 1])
      case None => None
      case Some(d) =>
        var c := ApplyChange(env, d, es[|es| - 1]);
        if c.Changed? then Some(c.db) else None
  }

  /** The entries a pass applied, in order, and those it skipped. */
  ghost function AppliedBy(env: Env, db: Db, es: seq<Entry>): (r: seq<Entry>)
    requires Shaped(es)
    ensures Shaped(r)
  {
    if es == [] then []
    else
      var init, e := es[..|es| - 1], es[|es| - 1];
      var p := RunPass(env, db, init);
      if p.error.None? && ApplyChange(env, p.db, e).Changed? then AppliedBy(env, db, init) + [e] else AppliedBy(env, db, init)
  }

  ghost function SkippedBy(env: Env, db: Db, es: seq<Entry>): (r: seq<Entry>)
    requires Shaped(es)
    ensures forall i | 0 <= i < |r| :: SkipGpkgTable(r[i].table.name)
  {
    if es == [] then []
    else
      var init, e := es[..|es| - 1], es[|es| - 1];
      var p := RunPass(env, db, init);
      if p.error.None? && ApplyChange(env, p.db, e).SkippedTable? then SkippedBy(env, db, init) + [e] else SkippedBy(env, db, init)
  }

  lemma LegalRunSnoc(env: Env, db: Db, a: seq<Entry>, e: Entry)
    requires Shaped(a) && e.WellShaped() && LegalRun(env, db, a).Some?
    ensures Shaped(a + [e])
    ensures var c := ApplyChange(env, LegalRun(env, db, a).value, e);
            LegalRun(env, db, a + [e]) == if c.Changed? then Some(c.db) else None
  {
    assert (a + [e])[..|a + [e]| - 1] == a;
  }

  /** A pass with one more entry, by what becomes of the entry. */
  lemma PassSnoc(env: Env, db: Db, init: seq<Entry>, e: Entry, c: Change)
    requires Shaped(init) && e.WellShaped() && Shaped(init + [e])
    requires c == ApplyChange(env, RunPass(env, db, init).db, e)
    ensures var es, p := init + [e], RunPass(env, db, init);
            var ok := p.error.None?;
            && AppliedBy(env, db, es) == (if ok && c.Changed? then AppliedBy(env, db, init) + [e] else AppliedBy(env, db, init))
            && SkippedBy(env, db, es) == (if ok && c.SkippedTable? then SkippedBy(env, db, init) + [e] else SkippedBy(env, db, init))
            && RunPass(env, db, es) == if !ok then p else (match c
                                                           case Changed(d) => p.(db := d)
                                                           case SkippedTable => p
                                                           case Conflicted => p.(pending := p.pending + [e])
                                                           case Unchanged => p.(unrecoverable := p.unrecoverable + 1)
                                                           case Refused(err) => p.(error := Some(err)))
  {
    AppliedSnoc(env, db, init, e);
    SkippedSnoc(env, db, init, e);
    RunPassSnoc(env, db, init, e);
  }

  lemma RunPassSnoc(env: Env, db: Db, init: seq<Entry>, e: Entry)
    requires Shaped(init) && e.WellShaped()
    ensures Shaped(init + [e]) && RunPass(env, db, init + [e]) == Advance(env, RunPass(env, db, init), e)
  {
    assert (init + [e])[..|init + [e]| - 1] == init;
  }

  lemma AppliedSnoc(env: Env, db: Db, init: seq<Entry>, e: Entry)
    requires Shaped(init) && e.WellShaped()
    ensures Shaped(init + [e])
    ensures var p := RunPass(env, db, init);
            AppliedBy(env, db, init + [e]) ==
            if p.error.None? && ApplyChange(env, p.db, e).Changed? then AppliedBy(env, db, init) + [e] else AppliedBy(env, db, init)
  {
    assert (init + [e])[..|init + [e]| - 1] == init;
  }

  lemma SkippedSnoc(env: Env, db: Db, init: seq<Entry>, e: Entry)
    requires Shaped(init) && e.WellShaped()
    ensures Shaped(init + [e])
    ensures var p := RunPass(env, db, init);
            SkippedBy(env, db, init + [e]) ==
            if p.error.None? && ApplyChange(env, p.db, e).SkippedTable? then SkippedBy(env, db, init) + [e] else SkippedBy(env, db, init)
  {
    assert (init + [e])[..|init + [e]| - 1] == init;
  }

  /** The state a pass reaches is that of the entries it applied. */
  lemma {:induction false} PassIsLegalRun(env: Env, db: Db, es: seq<Entry>)
    requires Shaped(es)
    ensures LegalRun(env, db, AppliedBy(env, db, es)) == Some(RunPass(env, db, es).db)
    decreases |es|
  {
    if es != [] {
      var init, e := es[..|es| - 1], es[|es| - 1];
      assert es == init + [e];
      PassIsLegalRun(env, db, init);
      PassSnoc(env, db, init, e, ApplyChange(env, RunPass(env, db, init).db, e));
      LegalRunSnoc(env, db, AppliedBy(env, db, init), e);
    }
  }

  /** A pass without error or failure: applied, skipped and pending entries are all of them. */
  lemma {:induction false} PassAccounts(env: Env, db: Db, es: seq<Entry>)
    requires Shaped(es)
    ensures RunPass(env, db, es).error.None? && RunPass(env, db, es).unrecoverable == 0 ==>
              multiset(es) == multiset(AppliedBy(env, db, es)) + multiset(SkippedBy(env, db, es)) + multiset(RunPass(env, db, es).pending)
    decreases |es|
  {
    if es != [] {
      var init, e := es[..|es| - 1], es[|es| - 1];
      assert es == init + [e];
      PassAccounts(env, db, init);
      PassSnoc(env, db, init, e, ApplyChange(env, RunPass(env, db, init).db, e));
    }
  }

  lemma {:induction false} LegalRunConcat(env: Env, db: Db, a: seq<Entry>, b: seq<Entry>)
    requires Shaped(a) && Shaped(b)
    ensures Shaped(a + b)
    ensures LegalRun(env, db, a + b) == (match LegalRun(env, db, a) case None => None case Some(d) => LegalRun(env, d, b))
    decreases |b|
  {
    if b == [] {
      assert a + b == a;
    } else {
      assert (a + b)[..|a + b| - 1] == a + b[..|b| - 1];
      LegalRunConcat(env, db, a, b[..|b| - 1]);
    }
  }

  /** A run of entries that accounts for `es`: some applied in order, the rest skipped as untracked tables. */
  ghost predicate Accounts(env: Env, db: Db, es: seq<Entry>, applied: seq<Entry>, skipped: seq<Entry>, d: Db) {
    && Shaped(applied) && LegalRun(env, db, applied) == Some(d)
    && multiset(es) == multiset(applied) + multiset(skipped)
    && forall i | 0 <= i < |skipped| :: SkipGpkgTable(skipped[i].table.name)
  }

  /** What a clean pass did, followed by what accounts for its pending entries. */
  lemma PassThenRest(env: Env, db: Db, es: seq<Entry>, applied: seq<Entry>, skipped: seq<Entry>, d: Db)
    requires Shaped(es) && RunPass(env, db, es).error.None? && RunPass(env, db, es).unrecoverable == 0
    requires Accounts(env, RunPass(env, db, es).db, RunPass(env, db, es).pending, applied, skipped, d)
    ensures Accounts(env, db, es, AppliedBy(env, db, es) + applied, SkippedBy(env, db, es) + skipped, d)
  {
    PassIsLegalRun(env, db, es);
    PassAccounts(env, db, es);
    LegalRunConcat(env, db, AppliedBy(env, db, es), applied);
  }

  lemma {:induction false} RetryAccounts(env: Env, db: Db, pending: seq<Entry>, unrecoverable: nat)
    returns (applied: seq<Entry>, skipped: seq<Entry>)
    requires Shaped(pending) && Retry(env, db, pending, unrecoverable).Finished? && Retry(env, db, pending, unrecoverable).unrecoverable == 0
    ensures unrecoverable == 0
    ensures Accounts(env, db, pending, applied, skipped, Retry(env, db, pending, unrecoverable).db)
    decreases |pending|
  {
    if pending == [] {
      applied, skipped := [], [];
    } else {
      var p := RunPass(env, db, pending);
      applied, skipped := RetryAccounts(env, p.db, p.pending, unrecoverable + p.unrecoverable);
      PassThenRest(env, db, pending, applied, skipped, Retry(env, db, pending, unrecoverable).db);
      applied, skipped := AppliedBy(env, db, pending) + applied, SkippedBy(env, db, pending) + skipped;
    }
  }

  /**
   On success every entry read was applied exactly once, in some order in which
   each step was accepted, or skipped because its table is not tracked.
   */
  lemma SuccessAccounts(env: Env, db: Db, es: seq<Entry>, readFails: bool) returns (applied: seq<Entry>, skipped: seq<Entry>)
    requires Shaped(es) && ApplyResult(env, db, es, readFails).1.Success?
    ensures Accounts(env, db, es, applied, skipped, ApplyResult(env, db, es, readFails).0)
  {
    var p := RunPass(env, db, es);
    applied, skipped := RetryAccounts(env, p.db, p.pending, p.unrecoverable);
    PassThenRest(env, db, es, applied, skipped, ApplyResult(env, db, es, readFails).0);
    applied, skipped := AppliedBy(env, db, es) + applied, SkippedBy(env, db, es) + skipped;
  }

  /** A changeset each of whose entries is accepted in turn is applied without a retry. */
  lemma {:induction false} LegalRunSucceeds(env: Env, db: Db, es: seq<Entry>)
    requires Shaped(es) && LegalRun(env, db, es).Some?
    ensures RunPass(env, db, es) == Pass(LegalRun(env, db, es).value, [], 0, None)
    ensures env.deferred(LegalRun(env, db, es).value) ==>
              ApplyResult(env, db, es, false) == (LegalRun(env, db, es).value, Success)
    decreases |es|
  {
    if es != [] {
      LegalRunSucceeds(env, db, es[..|es| - 1]);
    }
  }
}
