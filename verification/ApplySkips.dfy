/** Applying where some tables are skipped and nothing but primary keys constrains the rest. */
module ApplySkips {
  import opened Values
  import opened Rows
  import opened TableSchemas
  import opened Apply

  /** `m` with the rows of skipped tables taken from `x`. */
  ghost function Beside(x: Db, m: Db): (r: Db)
    ensures forall id: RowId :: Get(r, id) == if SkipGpkgTable(id.table) then Get(x, id) else Get(m, id)
  {
    map id | id in x.Keys + m.Keys && (if SkipGpkgTable(id.table) then id in x else id in m) ::
      if SkipGpkgTable(id.table) then x[id] else m[id]
  }

  /** The database has every table of `s` and no constraint beyond primary keys. */
  ghost predicate Open(env: Env, s: Schema) {
    && (forall d: Db :: env.legal(d) && env.deferred(d))
    && (forall t | t in s :: t in env.schema && env.schema[t].Table() == s[t])
  }

  lemma BesideItself(x: Db)
    ensures Beside(x, x) == x
  {
    GetDeterminesDb(Beside(x, x), x);
  }

  lemma BesideFits(s: Schema, x: Db, m: Db)
    requires DbOver(s, x) && DbOver(s, m)
    ensures DbOver(s, Beside(x, m))
  {
    forall id | id in Beside(x, m) ensures id.table in s && RowFits(id, s[id.table], Beside(x, m)[id]) {
      assert Get(Beside(x, m), id) == Some(Beside(x, m)[id]);
    }
  }

  lemma StrictBeside(s: Schema, x: Db, db: Db, e: Entry)
    requires DbOver(s, x) && DbOver(s, db) && EntryFits(s, e) && Strict(db, e).Some?
    ensures if SkipGpkgTable(e.table.name) then Beside(x, Strict(db, e).value) == Beside(x, db)
            else Strict(Beside(x, db), e) == Some(Beside(x, Strict(db, e).value))
  {
    var id, at := IdOf(e), Beside(x, db);
    StrictIsRowStep(s, db, e);
    var r := RowStep(e, Get(db, id)).value;
    if SkipGpkgTable(e.table.name) {
      PutBeside(x, db, id, r);
    } else {
      BesideFits(s, x, db);
      StrictIsRowStep(s, at, e);
      PutBeside(x, db, id, r);
    }
  }

  lemma PutBeside(x: Db, db: Db, id: RowId, r: Option<Row>)
    ensures Beside(x, Put(db, id, r)) == if SkipGpkgTable(id.table) then Beside(x, db) else Put(Beside(x, db), id, r)
  {
    GetDeterminesDb(Beside(x, Put(db, id, r)), if SkipGpkgTable(id.table) then Beside(x, db) else Put(Beside(x, db), id, r));
  }

  lemma OpenAccepts(env: Env, s: Schema, db: Db, e: Entry)
    requires ValidSchema(s) && Open(env, s) && EntryOver(s, e)
    ensures SkipGpkgTable(e.table.name) ==> ApplyChange(env, db, e) == SkippedTable
    ensures !SkipGpkgTable(e.table.name) && Strict(db, e).Some? ==> ApplyChange(env, db, e) == Change.Changed(Strict(db, e).value)
  {
  }

  /** One strictly applied entry, or one of a skipped table. */
  lemma ApplyBeside(env: Env, s: Schema, x: Db, db: Db, e: Entry)
    requires ValidSchema(s) && Open(env, s) && DbOver(s, x) && DbOver(s, db) && EntryFits(s, e) && Strict(db, e).Some?
    ensures var c := ApplyChange(env, Beside(x, db), e);
            if SkipGpkgTable(e.table.name) then c == SkippedTable && Beside(x, Strict(db, e).value) == Beside(x, db)
            else c == Change.Changed(Beside(x, Strict(db, e).value))
  {
    StrictBeside(s, x, db, e);
    OpenAccepts(env, s, Beside(x, db), e);
  }

  /** A changeset that applies strictly passes through the driver in one pass; skipped tables stay as they were. */
  lemma {:induction false} StrictRunPasses(env: Env, s: Schema, x: Db, db: Db, es: seq<Entry>)
    requires ValidSchema(s) && Open(env, s) && DbOver(s, x) && DbOver(s, db) && Fits(s, es) && ApplyAll(db, es).Some?
    ensures RunPass(env, Beside(x, db), es) == Pass(Beside(x, ApplyAll(db, es).value), [], 0, None)
    decreases |es|
  {
    if es != [] {
      var init, e := es[..|es| - 1], es[|es| - 1];
      StrictRunPasses(env, s, x, db, init);
      ApplyAllKeepsDb(s, db, init);
      ApplyBeside(env, s, x, ApplyAll(db, init).value, e);
    }
  }

  lemma StrictRunSucceeds(env: Env, s: Schema, x: Db, db: Db, es: seq<Entry>)
    requires ValidSchema(s) && Open(env, s) && DbOver(s, x) && DbOver(s, db) && Fits(s, es) && ApplyAll(db, es).Some?
    ensures ApplyResult(env, Beside(x, db), es, false) == (Beside(x, ApplyAll(db, es).value), Success)
  {
    StrictRunPasses(env, s, x, db, es);
  }
}
