/** The retry loop finds an order whenever there is one (driver/sqlite.go). */
module RetryComplete {
  import opened Values
  import opened Rows
  import opened Apply

  ghost predicate NoDuplicates(es: seq<Entry>) {
    forall i, j | 0 <= i < j < |es| :: es[i] != es[j]
  }

  /** The entries can be applied in this order, each accepted in turn. */
  ghost predicate Legal(env: Env, db: Db, xs: seq<Entry>) {
    Shaped(xs) && LegalRun(env, db, xs).Some?
  }

  /** A legal run of some of the pending entries, each at most once. */
  ghost predicate PartialRun(env: Env, db: Db, pending: seq<Entry>, xs: seq<Entry>) {
    NoDuplicates(xs) && (forall e | e in xs :: e in pending) && Legal(env, db, xs)
  }

  /** An entry the database accepts after some of the pending entries it also accepts after more of them. */
  ghost predicate Monotone(env: Env, db: Db, pending: seq<Entry>) {
    forall xs, ys, e |
      && PartialRun(env, db, pending, xs) && PartialRun(env, db, pending, ys)
      && (forall x | x in xs :: x in ys)
      && e in pending && e !in ys && Legal(env, db, xs + [e]) ::
      Legal(env, db, ys + [e])
  }

  /** After any partial run every other pending entry is accepted or refused by a constraint, never lost. */
  ghost predicate Settled(env: Env, db: Db, pending: seq<Entry>) {
    && Shaped(pending) && NoDuplicates(pending)
    && forall xs, e | PartialRun(env, db, pending, xs) && e in pending && e !in xs :: AcceptsOrRefuses(env, db, xs, e)
  }

  ghost predicate AcceptsOrRefuses(env: Env, db: Db, xs: seq<Entry>, e: Entry) {
    && Legal(env, db, xs) && e.WellShaped()
    && var c := ApplyChange(env, LegalRun(env, db, xs).value, e);
       c.Changed? || c.Conflicted?
  }

  /**
   What the first pass leaves: entries of checked tables that name different
   rows, where every UPDATE and DELETE still matches its row.
   */
  ghost predicate Steady(env: Env, s: Schema, db: Db, pending: seq<Entry>) {
    && DbOver(s, db) && Fits(s, pending) && DistinctIds(pending)
    && (forall i | 0 <= i < |pending| :: Tracked(env, pending[i]))
    && (forall i | 0 <= i < |pending| :: pending[i].op != Insert ==> RowStep(pending[i], Get(db, IdOf(pending[i]))).Some?)
  }

  ghost predicate Tracked(env: Env, e: Entry) {
    !SkipGpkgTable(e.table.name) && CheckTable(env, e.table) == None
  }

  // ----- Pending entries are accepted or refused, never lost -----

  lemma {:induction false} LegalRunIsApplyAll(env: Env, db: Db, xs: seq<Entry>)
    requires Shaped(xs) && LegalRun(env, db, xs).Some?
    ensures ApplyAll(db, xs) == LegalRun(env, db, xs)
    decreases |xs|
  {
    if xs != [] {
      LegalRunIsApplyAll(env, db, xs[..|xs| - 1]);
    }
  }

  /** UPDATE and DELETE never meet the key constraint: they match or change nothing. */
  lemma StatementOfMatch(s: Schema, db: Db, e: Entry)
    requires DbOver(s, db) && EntryFits(s, e) && e.op != Insert
    ensures RowStep(e, Get(db, IdOf(e))).Some? ==> Statement(db, e).Applied?
    ensures RowStep(e, Get(db, IdOf(e))).None? ==> Statement(db, e) == NoChange
  {
    StrictIsRowStep(s, db, e);
  }

  lemma MembersFit(s: Schema, pending: seq<Entry>, xs: seq<Entry>)
    requires Fits(s, pending) && DistinctIds(pending) && NoDuplicates(xs) && forall e | e in xs :: e in pending
    ensures Fits(s, xs) && DistinctIds(xs)
  {
    forall i | 0 <= i < |xs| ensures EntryFits(s, xs[i]) {
      assert xs[i] in pending;
    }
    forall i, j | 0 <= i < j < |xs| ensures IdOf(xs[i]) != IdOf(xs[j]) {
      assert xs[i] in pending && xs[j] in pending;
      var a :| 0 <= a < |pending| && pending[a] == xs[i];
      var b :| 0 <= b < |pending| && pending[b] == xs[j];
      assert a < b || b < a;
    }
  }

  lemma PendingApart(s: Schema, pending: seq<Entry>, xs: seq<Entry>, e: Entry)
    requires Fits(s, pending) && DistinctIds(pending) && e in pending && e !in xs && forall x | x in xs :: x in pending
    ensures e.WellShaped() && Shaped(xs) && !Touches(xs, IdOf(e))
  {
    var a :| 0 <= a < |pending| && pending[a] == e;
    forall i | 0 <= i < |xs| ensures xs[i].WellShaped() && IdOf(xs[i]) != IdOf(e) {
      assert xs[i] in pending;
      var b :| 0 <= b < |pending| && pending[b] == xs[i];
      assert a < b || b < a;
    }
  }

  /** A pending entry is still untouched by a run of other pending entries. */
  lemma RowUntouched(env: Env, s: Schema, db: Db, pending: seq<Entry>, xs: seq<Entry>, e: Entry)
    requires Steady(env, s, db, pending) && PartialRun(env, db, pending, xs) && e in pending && e !in xs
    ensures e.WellShaped() && DbOver(s, LegalRun(env, db, xs).value)
    ensures Get(LegalRun(env, db, xs).value, IdOf(e)) == Get(db, IdOf(e))
  {
    var d := LegalRun(env, db, xs).value;
    MembersFit(s, pending, xs);
    LegalRunIsApplyAll(env, db, xs);
    ApplyAllKeepsDb(s, db, xs);
    AppliedIsPointwise(s, db, xs, d);
    PendingApart(s, pending, xs, e);
  }

  lemma SteadyAccepts(env: Env, s: Schema, db: Db, pending: seq<Entry>, xs: seq<Entry>, e: Entry)
    requires Steady(env, s, db, pending) && PartialRun(env, db, pending, xs) && e in pending && e !in xs
    ensures AcceptsOrRefuses(env, db, xs, e)
  {
    RowUntouched(env, s, db, pending, xs, e);
    var a :| 0 <= a < |pending| && pending[a] == e;
    assert Tracked(env, pending[a]);
    if e.op != Insert {
      StatementOfMatch(s, LegalRun(env, db, xs).value, e);
    }
  }

  /** Entries that name different rows and still match them are settled. */
  lemma SteadyIsSettled(env: Env, s: Schema, db: Db, pending: seq<Entry>)
    requires Steady(env, s, db, pending)
    ensures Settled(env, db, pending)
  {
    forall i, j | 0 <= i < j < |pending| ensures pending[i] != pending[j] {
      assert IdOf(pending[i]) != IdOf(pending[j]);
    }
    forall xs, e | PartialRun(env, db, pending, xs) && e in pending && e !in xs ensures AcceptsOrRefuses(env, db, xs, e) {
      SteadyAccepts(env, s, db, pending, xs, e);
    }
  }

  /** One more pending entry after a partial run. */
  lemma AcceptedOrRefused(env: Env, db: Db, pending: seq<Entry>, xs: seq<Entry>, e: Entry)
    requires Settled(env, db, pending) && PartialRun(env, db, pending, xs) && e in pending && e !in xs
    ensures e.WellShaped() && Shaped(xs + [e])
    ensures var c := ApplyChange(env, LegalRun(env, db, xs).value, e);
            && (c.Changed? || c.Conflicted?)
            && (c.Changed? <==> Legal(env, db, xs + [e]))
            && (c.Changed? ==> LegalRun(env, db, xs + [e]) == Some(c.db) && PartialRun(env, db, pending, xs + [e]))
  {
    assert AcceptsOrRefuses(env, db, xs, e);
    LegalRunSnoc(env, db, xs, e);
  }

  // ----- One pass -----

  /** The pending entries are those of the run and those of the rest, without overlap. */
  ghost predicate Splits(pending: seq<Entry>, xs: seq<Entry>, rest: seq<Entry>) {
    && NoDuplicates(rest)
    && (forall e :: e in pending <==> e in xs || e in rest)
    && (forall e | e in rest :: e !in xs)
  }

  /** Where a pass over `rest`, begun after the run xs, stands with its first n entries done and ys run. */
  ghost predicate PassStands(env: Env, db: Db, pending: seq<Entry>, xs: seq<Entry>, rest: seq<Entry>, n: nat, ys: seq<Entry>, p: Pass)
    requires n <= |rest|
  {
    && p.error.None? && p.unrecoverable == 0 && |p.pending| <= n
    && PartialRun(env, db, pending, ys) && LegalRun(env, db, ys) == Some(p.db)
    && Splits(pending, ys, p.pending + rest[n..])
    && (|p.pending| == n ==> ys == xs && p.pending == rest[..n] && AllRefused(env, db, xs, rest[..n]))
  }

  ghost predicate AllRefused(env: Env, db: Db, xs: seq<Entry>, es: seq<Entry>) {
    forall e | e in es :: !Legal(env, db, xs + [e])
  }

  lemma SplitsMove(pending: seq<Entry>, xs: seq<Entry>, before: seq<Entry>, e: Entry, after: seq<Entry>)
    requires Splits(pending, xs, before + [e] + after)
    ensures e in pending && e !in xs
    ensures Splits(pending, xs + [e], before + after)
    ensures before + [e] + after == (before + [e]) + after
  {
    var all, less := before + [e] + after, before + after;
    assert all[|before|] == e;
    forall i, j | 0 <= i < j < |less| ensures less[i] != less[j] {
      assert less[i] == all[if i < |before| then i else i + 1] && less[j] == all[if j < |before| then j else j + 1];
    }
    forall x | x in less ensures x != e && x in all {
      var i :| 0 <= i < |less| && less[i] == x;
      assert all[if i < |before| then i else i + 1] == x;
    }
    assert forall x :: x in all <==> x in less || x == e;
  }

  lemma NextOfRest(before: seq<Entry>, rest: seq<Entry>, n: nat)
    requires n < |rest|
    ensures before + rest[n..] == before + [rest[n]] + rest[n + 1..]
  {
  }

  lemma PassAccepts(env: Env, db: Db, pending: seq<Entry>, xs: seq<Entry>, rest: seq<Entry>, n: nat, ys: seq<Entry>, p: Pass, d: Db)
    requires n < |rest| && PassStands(env, db, pending, xs, rest, n, ys, p)
    requires PartialRun(env, db, pending, ys + [rest[n]]) && LegalRun(env, db, ys + [rest[n]]) == Some(d)
    ensures PassStands(env, db, pending, xs, rest, n + 1, ys + [rest[n]], p.(db := d))
  {
    NextOfRest(p.pending, rest, n);
    SplitsMove(pending, ys, p.pending, rest[n], rest[n + 1..]);
  }

  lemma PassRefuses(env: Env, db: Db, pending: seq<Entry>, xs: seq<Entry>, rest: seq<Entry>, n: nat, ys: seq<Entry>, p: Pass)
    requires n < |rest| && PassStands(env, db, pending, xs, rest, n, ys, p) && !Legal(env, db, ys + [rest[n]])
    ensures PassStands(env, db, pending, xs, rest, n + 1, ys, p.(pending := p.pending + [rest[n]]))
  {
    NextOfRest(p.pending, rest, n);
    assert rest[..n + 1] == rest[..n] + [rest[n]];
  }

  lemma PassStep(env: Env, db: Db, pending: seq<Entry>, xs: seq<Entry>, rest: seq<Entry>, n: nat, ys: seq<Entry>, p: Pass)
    returns (ys': seq<Entry>)
    requires Settled(env, db, pending) && n < |rest| && rest[n].WellShaped() && PassStands(env, db, pending, xs, rest, n, ys, p)
    ensures PassStands(env, db, pending, xs, rest, n + 1, ys', Advance(env, p, rest[n]))
  {
    var e := rest[n];
    assert (p.pending + rest[n..])[|p.pending|] == e;
    assert e in p.pending + rest[n..];
    AcceptedOrRefused(env, db, pending, ys, e);
    match ApplyChange(env, p.db, e) {
      case Changed(d) =>
        ys' := ys + [e];
        PassAccepts(env, db, pending, xs, rest, n, ys, p, d);
      case _ =>
        ys' := ys;
        PassRefuses(env, db, pending, xs, rest, n, ys, p);
    }
  }

  /** A pass over the first n entries of `rest`, begun after the run xs, stands at the run ys. */
  ghost predicate PassReaches(env: Env, db: Db, pending: seq<Entry>, xs: seq<Entry>, rest: seq<Entry>, n: nat, ys: seq<Entry>)
    requires Legal(env, db, xs) && Shaped(rest) && n <= |rest|
  {
    PassStands(env, db, pending, xs, rest, n, ys, RunPass(env, LegalRun(env, db, xs).value, rest[..n]))
  }

  lemma PassGoesOn(env: Env, db: Db, pending: seq<Entry>, xs: seq<Entry>, rest: seq<Entry>, n: nat, ys: seq<Entry>) returns (ys': seq<Entry>)
    requires Settled(env, db, pending) && Legal(env, db, xs) && Shaped(rest) && n < |rest|
    requires PassReaches(env, db, pending, xs, rest, n, ys)
    ensures PassReaches(env, db, pending, xs, rest, n + 1, ys')
  {
    RunPassOn(env, LegalRun(env, db, xs).value, rest, n + 1);
    ys' := PassStep(env, db, pending, xs, rest, n, ys, RunPass(env, LegalRun(env, db, xs).value, rest[..n]));
  }

  lemma WholePass(env: Env, db: Db, pending: seq<Entry>, xs: seq<Entry>, rest: seq<Entry>, n: nat) returns (ys: seq<Entry>)
    requires Settled(env, db, pending) && PartialRun(env, db, pending, xs) && Shaped(rest) && Splits(pending, xs, rest) && n <= |rest|
    ensures PassReaches(env, db, pending, xs, rest, n, ys)
    decreases n
  {
    if n == 0 {
      ys := xs;
      PassBegins(env, db, pending, xs, rest);
    } else {
      ys := WholePass(env, db, pending, xs, rest, n - 1);
      ys := PassGoesOn(env, db, pending, xs, rest, n - 1, ys);
    }
  }

  lemma PassBegins(env: Env, db: Db, pending: seq<Entry>, xs: seq<Entry>, rest: seq<Entry>)
    requires PartialRun(env, db, pending, xs) && Shaped(rest) && Splits(pending, xs, rest)
    ensures PassReaches(env, db, pending, xs, rest, 0, xs)
  {
    assert rest[..0] == [] && [] + rest[0..] == rest;
  }

  lemma RunPassOn(env: Env, db: Db, rest: seq<Entry>, n: nat)
    requires Shaped(rest) && 0 < n <= |rest|
    ensures Shaped(rest[..n]) && RunPass(env, db, rest[..n]) == Advance(env, RunPass(env, db, rest[..n - 1]), rest[n - 1])
  {
    assert rest[..n][..n - 1] == rest[..n - 1];
  }

  /** A finished pass either refused everything or leaves fewer entries after a longer run. */
  lemma PassEnds(env: Env, db: Db, pending: seq<Entry>, xs: seq<Entry>, rest: seq<Entry>) returns (ys: seq<Entry>)
    requires Settled(env, db, pending) && PartialRun(env, db, pending, xs) && Shaped(rest) && Splits(pending, xs, rest)
    ensures var p := RunPass(env, LegalRun(env, db, xs).value, rest);
            && p.error.None? && p.unrecoverable == 0
            && PartialRun(env, db, pending, ys) && LegalRun(env, db, ys) == Some(p.db) && Splits(pending, ys, p.pending)
            && (|p.pending| == |rest| ==> AllRefused(env, db, xs, rest))
  {
    ys := WholePass(env, db, pending, xs, rest, |rest|);
    assert rest[..|rest|] == rest;
    var p := RunPass(env, LegalRun(env, db, xs).value, rest);
    assert p.pending + rest[|rest|..] == p.pending;
  }

  // ----- The loop -----

  /** The loop ends with everything applied, or stuck at a run after which every remaining entry is refused. */
  lemma RetryEnds(env: Env, db: Db, pending: seq<Entry>, xs: seq<Entry>, rest: seq<Entry>, u: nat)
    returns (zs: seq<Entry>, left: seq<Entry>)
    requires Settled(env, db, pending) && PartialRun(env, db, pending, xs) && Shaped(rest) && Splits(pending, xs, rest)
    ensures PartialRun(env, db, pending, zs) && Splits(pending, zs, left)
    ensures Retry(env, LegalRun(env, db, xs).value, rest, u) ==
            if left == [] then Finished(LegalRun(env, db, zs).value, u) else Stuck
    ensures AllRefused(env, db, zs, left)
    decreases |rest|
  {
    if rest == [] {
      zs, left := xs, rest;
    } else {
      var ys := PassEnds(env, db, pending, xs, rest);
      var p := RunPass(env, LegalRun(env, db, xs).value, rest);
      RetryStep(env, LegalRun(env, db, xs).value, rest, u);
      if |p.pending| == |rest| {
        zs, left := xs, rest;
      } else {
        zs, left := RetryEnds(env, db, pending, ys, p.pending, u);
      }
    }
  }

  /** Some order of all pending entries is applicable. */
  ghost predicate OrderExists(env: Env, db: Db, pending: seq<Entry>) {
    exists zs :: Permutation(pending, zs) && Legal(env, db, zs)
  }

  lemma {:induction false} SameElementsPermute(es: seq<Entry>, fs: seq<Entry>)
    requires NoDuplicates(es) && NoDuplicates(fs) && forall e :: e in es <==> e in fs
    ensures Permutation(es, fs)
  {
    forall e ensures multiset(es)[e] == multiset(fs)[e] {
      CountOnce(es, e);
      CountOnce(fs, e);
    }
  }

  lemma {:induction false} CountOnce(es: seq<Entry>, e: Entry)
    requires NoDuplicates(es)
    ensures multiset(es)[e] == if e in es then 1 else 0
    decreases |es|
  {
    if es != [] {
      var init, last := es[..|es| - 1], es[|es| - 1];
      assert es == init + [last];
      CountOnce(init, e);
      assert last !in init;
    }
  }

  lemma TwiceCounted(es: seq<Entry>, i: int, j: int)
    requires 0 <= i < j < |es| && es[i] == es[j]
    ensures multiset(es)[es[i]] >= 2
  {
    assert es == es[..j] + es[j..];
    assert es[..j][i] in es[..j] && es[j..][0] in es[j..];
    assert multiset(es) == multiset(es[..j]) + multiset(es[j..]);
  }

  lemma PermutationOnce(es: seq<Entry>, fs: seq<Entry>)
    requires NoDuplicates(es) && Permutation(es, fs)
    ensures NoDuplicates(fs)
  {
    forall i, j | 0 <= i < j < |fs| ensures fs[i] != fs[j] {
      CountOnce(es, fs[i]);
      if fs[i] == fs[j] {
        TwiceCounted(fs, i, j);
      }
    }
  }

  lemma {:induction false} LegalPrefix(env: Env, db: Db, zs: seq<Entry>, n: nat)
    requires Legal(env, db, zs) && n <= |zs|
    ensures Legal(env, db, zs[..n])
    decreases |zs|
  {
    if n < |zs| {
      LegalPrefix(env, db, zs[..|zs| - 1], n);
      assert zs[..|zs| - 1][..n] == zs[..n];
    } else {
      assert zs[..n] == zs;
    }
  }

  /** The beginning of an applicable order is a partial run. */
  lemma PrefixIsPartialRun(env: Env, db: Db, pending: seq<Entry>, order: seq<Entry>, m: nat)
    requires Settled(env, db, pending) && Permutation(pending, order) && Legal(env, db, order) && m <= |order|
    ensures PartialRun(env, db, pending, order[..m])
  {
    PermutationElements(pending, order);
    PermutationOnce(pending, order);
    LegalPrefix(env, db, order, m);
    var pre := order[..m];
    forall x | x in pre ensures x in pending {
      assert x in order;
    }
  }

  /** If some order of everything exists, no partial run is stuck: the first missing entry of that order is accepted. */
  lemma NotStuck(env: Env, db: Db, pending: seq<Entry>, zs: seq<Entry>, left: seq<Entry>, order: seq<Entry>)
    requires Settled(env, db, pending) && Monotone(env, db, pending)
    requires PartialRun(env, db, pending, zs) && Splits(pending, zs, left) && left != []
    requires Permutation(pending, order) && Legal(env, db, order)
    ensures !AllRefused(env, db, zs, left)
  {
    PermutationElements(pending, order);
    assert left[0] in left && left[0] in order;
    var m := FirstMissing(order, zs, left[0]);
    var pre, e := order[..m], order[m];
    PrefixIsPartialRun(env, db, pending, order, m);
    LegalPrefix(env, db, order, m + 1);
    PrefixEnds(order, zs, m);
    assert e in order && e in left;
    MonotoneStep(env, db, pending, pre, zs, e);
  }

  lemma PrefixEnds(order: seq<Entry>, zs: seq<Entry>, m: nat)
    requires m < |order| && forall i | 0 <= i < m :: order[i] in zs
    ensures order[..m + 1] == order[..m] + [order[m]]
    ensures forall x | x in order[..m] :: x in zs
  {
  }

  lemma MonotoneStep(env: Env, db: Db, pending: seq<Entry>, xs: seq<Entry>, ys: seq<Entry>, e: Entry)
    requires Monotone(env, db, pending)
    requires PartialRun(env, db, pending, xs) && PartialRun(env, db, pending, ys) && forall x | x in xs :: x in ys
    requires e in pending && e !in ys && Legal(env, db, xs + [e])
    ensures Legal(env, db, ys + [e])
  {
  }

  lemma FirstMissing(order: seq<Entry>, zs: seq<Entry>, e: Entry) returns (m: nat)
    requires e in order && e !in zs
    ensures m < |order| && order[m] !in zs && forall i | 0 <= i < m :: order[i] in zs
  {
    m := 0;
    while order[m] in zs
      invariant m < |order| && forall i | 0 <= i < m :: order[i] in zs
      invariant exists i :: m <= i < |order| && order[i] == e
      decreases |order| - m
    {
      m := m + 1;
    }
  }

  /** All of `pending` applied in the order zs, each accepted in turn. */
  ghost predicate RunsAll(env: Env, db: Db, pending: seq<Entry>, zs: seq<Entry>, d: Db) {
    Permutation(pending, zs) && Legal(env, db, zs) && LegalRun(env, db, zs) == Some(d)
  }

  /**
   Completeness of the loop: if acceptance is monotone, it applies every
   pending entry, in some order, exactly when some order of them is applicable,
   and otherwise reports unresolved dependencies; none counts as a failed change.
   */
  lemma RetryIsComplete(env: Env, db: Db, pending: seq<Entry>, u: nat)
    requires Settled(env, db, pending) && Monotone(env, db, pending)
    ensures OrderExists(env, db, pending) ==> exists zs, d :: RunsAll(env, db, pending, zs, d) && Retry(env, db, pending, u) == Finished(d, u)
    ensures !OrderExists(env, db, pending) ==> Retry(env, db, pending, u) == Stuck
  {
    assert LegalRun(env, db, []) == Some(db);
    var zs, left := RetryEnds(env, db, pending, [], pending, u);
    if left == [] {
      SameElementsPermute(pending, zs);
      assert OrderExists(env, db, pending);
      assert RunsAll(env, db, pending, zs, LegalRun(env, db, zs).value);
    } else if OrderExists(env, db, pending) {
      var order :| Permutation(pending, order) && Legal(env, db, order);
      NotStuck(env, db, pending, zs, left, order);
    }
  }

  // ----- The first pass leaves a steady rest -----

  /** Entries that name different rows: what the first pass leaves pending is steady. */
  lemma {:induction false} FirstPassIsSteady(env: Env, s: Schema, db: Db, es: seq<Entry>)
    requires DbOver(s, db) && Fits(s, es) && DistinctIds(es) && forall i | 0 <= i < |es| :: Tracked(env, es[i])
    ensures var p := RunPass(env, db, es);
            p.error.None? && Steady(env, s, p.db, p.pending) && forall e | e in p.pending :: e in es
    decreases |es|
  {
    if es != [] {
      var init, e := es[..|es| - 1], es[|es| - 1];
      assert es == init + [e];
      DistinctSnoc(init, e);
      FirstPassIsSteady(env, s, db, init);
      var p := RunPass(env, db, init);
      PassSnoc(env, db, init, e, ApplyChange(env, p.db, e));
      forall x | x in p.pending ensures x.WellShaped() && IdOf(x) != IdOf(e) {
        var i :| 0 <= i < |init| && init[i] == x;
        assert EntryFits(s, init[i]) && IdOf(init[i]) != IdOf(e);
      }
      SteadyStep(env, s, p.db, p.pending, e);
    }
  }

  /** One more entry, naming another row. */
  lemma SteadyStep(env: Env, s: Schema, db: Db, pending: seq<Entry>, e: Entry)
    requires Steady(env, s, db, pending) && EntryFits(s, e) && Tracked(env, e)
    requires forall x | x in pending :: x.WellShaped() && IdOf(x) != IdOf(e)
    ensures match ApplyChange(env, db, e)
            case Changed(d) => Steady(env, s, d, pending)
            case Conflicted => Steady(env, s, db, pending + [e])
            case Unchanged => true
            case _ => false
  {
    StrictIsRowStep(s, db, e);
    match ApplyChange(env, db, e) {
      case Changed(d) =>
        forall i | 0 <= i < |pending| ensures Get(d, IdOf(pending[i])) == Get(db, IdOf(pending[i])) {
          assert pending[i] in pending;
        }
      case Conflicted =>
        if e.op != Insert {
          StatementOfMatch(s, db, e);
        }
        forall i | 0 <= i < |pending| ensures IdOf(pending[i]) != IdOf(e) {
          assert pending[i] in pending;
        }
        DistinctSnoc(pending, e);
      case _ =>
    }
  }

  /**
   The whole call, for entries of tracked tables that name different rows: it
   succeeds exactly when the first pass counted no failure, what it left can be
   applied in some order, and the release accepts the state the loop ends in;
   otherwise the first of these that fails, the order first, names the error.
   */
  lemma ApplySucceedsIff(env: Env, s: Schema, db: Db, es: seq<Entry>)
    requires DbOver(s, db) && Fits(s, es) && DistinctIds(es) && forall i | 0 <= i < |es| :: Tracked(env, es[i])
    requires Monotone(env, RunPass(env, db, es).db, RunPass(env, db, es).pending)
    ensures var p := RunPass(env, db, es);
            var r := Retry(env, p.db, p.pending, p.unrecoverable);
            && (r.Finished? <==> OrderExists(env, p.db, p.pending))
            && (r.Finished? ==> exists zs :: RunsAll(env, p.db, p.pending, zs, r.db))
            && ApplyResult(env, db, es, false).1 ==
               if !OrderExists(env, p.db, p.pending) then Failure(UnresolvedDependencies)
               else if p.unrecoverable > 0 then Failure(ConflictsEncountered(p.unrecoverable))
               else if !env.deferred(r.db) then Failure(ReleaseFailed)
               else Success
  {
    var p := RunPass(env, db, es);
    FirstPassIsSteady(env, s, db, es);
    SteadyIsSettled(env, s, p.db, p.pending);
    RetryIsComplete(env, p.db, p.pending, p.unrecoverable);
  }
}
