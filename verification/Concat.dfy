/** Merging whole changesets (ConcatChangesets, changeset/concat.go). */
module Concat {
  import opened Values
  import opened Rows
  import opened Diff
  import opened PkKey
  import opened Merge

  /** Accumulated entries are filed under their table and their key string. */
  datatype RowKey = RowKey(table: Name, key: seq<byte>)

  function KeyIn(e: Entry, fmt: FloatFormat): RowKey
    requires e.WellShaped()
  {
    RowKey(e.table.name, KeyString(e, fmt))
  }

  type Merged = map<RowKey, Entry>

  ghost predicate Accumulated(s: Schema, m: Merged) {
    forall k | k in m :: m[k].WellShaped() && k.table in s && m[k].table == s[k.table]
  }

  /** One more entry: recorded, merged into the row's entry, or both dropped. */
  function Accumulate(m: Merged, e: Entry, fmt: FloatFormat): Merged
    requires e.WellShaped()
    requires KeyIn(e, fmt) in m ==> m[KeyIn(e, fmt)].WellShaped() && m[KeyIn(e, fmt)].table == e.table
  {
    var k := KeyIn(e, fmt);
    if k !in m then m[k := e]
    else
      match MergeRows(m[k], e)
      case Modified(x) => m[k := x]
      case _ => m - {k}
  }

  ghost function AccumulateAll(s: Schema, es: seq<Entry>, fmt: FloatFormat): (m: Merged)
    requires OverSchema(s, es)
    ensures Accumulated(s, m)
  {
    if es == [] then map[]
    else Accumulate(AccumulateAll(s, es[..|es| - 1], fmt), es[|es| - 1], fmt)
  }

  ghost predicate AllMergeable(es: seq<Entry>) {
    forall i | 0 <= i < |es| :: Mergeable(es[i])
  }

  // ----- The merged map carries the effect of everything read so far -----

  /** Some naming of key strings by rows agrees with the entries: equal strings mean equal rows. */
  ghost predicate Names(rowOf: RowKey -> RowId, es: seq<Entry>, fmt: FloatFormat)
    requires Shaped(es)
  {
    forall i | 0 <= i < |es| :: rowOf(KeyIn(es[i], fmt)) == IdOf(es[i])
  }

  /** pkKey tells the rows of the changeset apart. */
  ghost predicate ToldApart(es: seq<Entry>, fmt: FloatFormat)
    requires Shaped(es)
  {
    forall i, j | 0 <= i < |es| && 0 <= j < |es| && KeyIn(es[i], fmt) == KeyIn(es[j], fmt) :: IdOf(es[i]) == IdOf(es[j])
  }

  /** pkKey reads back from the string: printed values, and only one part or no ']' inside the parts. */
  ghost predicate ClearKey(pks: seq<bool>, vals: Row, fmt: FloatFormat)
    requires |pks| == |vals|
  {
    ReadableKey(pks, vals, fmt) && (AtMostOneKey(pks) || PlainKey(pks, vals, fmt))
  }

  ghost predicate ClearKeys(es: seq<Entry>, fmt: FloatFormat)
    requires Shaped(es)
  {
    forall i | 0 <= i < |es| :: ClearKey(es[i].table.primaryKeys, es[i].KeyValues(), fmt)
  }

  lemma ClearKeyNames(pks: seq<bool>, a: Row, b: Row, fmt: FloatFormat)
    requires |pks| == |a| == |b| && ClearKey(pks, a, fmt) && ClearKey(pks, b, fmt)
    requires PkString(pks, a, |pks|, fmt) == PkString(pks, b, |pks|, fmt)
    ensures KeyOf(pks, a) == KeyOf(pks, b)
  {
    if AtMostOneKey(pks) {
      OneKeyInjective(pks, a, b, fmt);
    } else {
      forall i | 0 <= i < |pks| && pks[i] ensures a[i] == b[i] {
        PlainKeysInjective(pks, a, b, |pks|, fmt, i);
      }
    }
  }

  /** Entries with clear keys, over one schema, are told apart. */
  lemma ClearKeysToldApart(s: Schema, es: seq<Entry>, fmt: FloatFormat)
    requires OverSchema(s, es) && ClearKeys(es, fmt)
    ensures ToldApart(es, fmt)
  {
    forall i, j | 0 <= i < |es| && 0 <= j < |es| && KeyIn(es[i], fmt) == KeyIn(es[j], fmt) ensures IdOf(es[i]) == IdOf(es[j]) {
      assert EntryOver(s, es[i]) && EntryOver(s, es[j]);
      ClearKeyNames(es[i].table.primaryKeys, es[i].KeyValues(), es[j].KeyValues(), fmt);
    }
  }

  lemma NamingExists(es: seq<Entry>, fmt: FloatFormat) returns (rowOf: RowKey -> RowId)
    requires Shaped(es) && ToldApart(es, fmt)
    ensures Names(rowOf, es, fmt)
  {
    var ids: map<RowKey, RowId> := map k | k in (set i | 0 <= i < |es| :: KeyIn(es[i], fmt)) :: RowNamed(es, fmt, k);
    rowOf := k => if k in ids then ids[k] else RowId([], []);
  }

  ghost function RowNamed(es: seq<Entry>, fmt: FloatFormat, k: RowKey): (id: RowId)
    requires Shaped(es) && ToldApart(es, fmt)
    requires exists i :: 0 <= i < |es| && KeyIn(es[i], fmt) == k
    ensures forall i | 0 <= i < |es| && KeyIn(es[i], fmt) == k :: IdOf(es[i]) == id
  {
    var i :| 0 <= i < |es| && KeyIn(es[i], fmt) == k;
    IdOf(es[i])
  }

  /** Entry `m[k]` stands for the row named by k and takes it from d0 to d. */
  ghost predicate CellCarries(s: Schema, m: Merged, k: RowKey, rowOf: RowKey -> RowId, d0: Db, d: Db, fmt: FloatFormat)
    requires k in m
  {
    var e := m[k];
    && Mergeable(e) && e.table.name in s && e.table == s[e.table.name]
    && KeyIn(e, fmt) == k
    && IdOf(e) == rowOf(k)
    && RowStep(e, Get(d0, rowOf(k))) == Some(Get(d, rowOf(k)))
  }

  /** Every merged entry carries its row from d0 to d, and no other row differs. */
  ghost predicate Carries(s: Schema, m: Merged, rowOf: RowKey -> RowId, d0: Db, d: Db, fmt: FloatFormat) {
    && (forall k | k in m :: CellCarries(s, m, k, rowOf, d0, d, fmt))
    && (forall id: RowId | id !in NamedRows(m, rowOf) :: Get(d0, id) == Get(d, id))
  }

  ghost function NamedRows(m: Merged, rowOf: RowKey -> RowId): set<RowId> {
    set k | k in m :: rowOf(k)
  }

  lemma CellsNameRowsOnce(s: Schema, m: Merged, k: RowKey, l: RowKey, rowOf: RowKey -> RowId, d0: Db, d: Db, fmt: FloatFormat)
    requires k in m && l in m && CellCarries(s, m, k, rowOf, d0, d, fmt) && CellCarries(s, m, l, rowOf, d0, d, fmt)
    requires rowOf(k) == rowOf(l)
    ensures k == l
  {
    SameIdSameString(m[k], m[l], fmt);
  }

  /** The row's own cell after one more entry. */
  lemma CellStep(s: Schema, m: Merged, rowOf: RowKey -> RowId, d0: Db, d: Db, e: Entry, r: Option<Row>, fmt: FloatFormat)
    requires DbOver(s, d0)
    requires Mergeable(e) && EntryFits(s, e) && rowOf(KeyIn(e, fmt)) == IdOf(e)
    requires KeyIn(e, fmt) in m && CellCarries(s, m, KeyIn(e, fmt), rowOf, d0, d, fmt)
    requires RowStep(e, Get(d, IdOf(e))) == Some(r)
    ensures m[KeyIn(e, fmt)].table == e.table
    ensures match MergeRows(m[KeyIn(e, fmt)], e)
            case Modified(x) =>
              Mergeable(x) && x.table == e.table && KeyIn(x, fmt) == KeyIn(e, fmt) && IdOf(x) == IdOf(e) &&
              RowStep(x, Get(d0, IdOf(e))) == Some(r)
            case Removed => Get(d0, IdOf(e)) == r
            case Unsupported => false
  {
    var k, id := KeyIn(e, fmt), IdOf(e);
    assert OptionFits(id, e.table, Get(d0, id));
    MergeComposes(id, m[k], e, Get(d0, id), Get(d, id), r);
    match MergeRows(m[k], e) {
      case Modified(x) => SameIdSameString(x, e, fmt);
      case _ =>
    }
  }

  lemma NewKeyNewRow(s: Schema, m: Merged, rowOf: RowKey -> RowId, d0: Db, d: Db, e: Entry, fmt: FloatFormat)
    requires Carries(s, m, rowOf, d0, d, fmt)
    requires e.WellShaped() && e.table.name in s && e.table == s[e.table.name] && rowOf(KeyIn(e, fmt)) == IdOf(e)
    requires KeyIn(e, fmt) !in m
    ensures Get(d0, IdOf(e)) == Get(d, IdOf(e))
  {
    forall l | l in m ensures rowOf(l) != IdOf(e) {
      assert CellCarries(s, m, l, rowOf, d0, d, fmt);
      if rowOf(l) == IdOf(e) {
        SameIdSameString(m[l], e, fmt);
      }
    }
  }

  lemma AccumulateElsewhere(m: Merged, e: Entry, fmt: FloatFormat)
    requires e.WellShaped()
    requires KeyIn(e, fmt) in m ==> m[KeyIn(e, fmt)].WellShaped() && m[KeyIn(e, fmt)].table == e.table
    ensures Accumulate(m, e, fmt) - {KeyIn(e, fmt)} == m - {KeyIn(e, fmt)}
  {
  }

  lemma CarriesStep(s: Schema, m: Merged, rowOf: RowKey -> RowId, d0: Db, d: Db, e: Entry, d': Db, fmt: FloatFormat)
    requires DbOver(s, d0) && DbOver(s, d) && Carries(s, m, rowOf, d0, d, fmt)
    requires Mergeable(e) && EntryFits(s, e) && rowOf(KeyIn(e, fmt)) == IdOf(e)
    requires Strict(d, e) == Some(d')
    ensures KeyIn(e, fmt) in m ==> m[KeyIn(e, fmt)].WellShaped() && m[KeyIn(e, fmt)].table == e.table
    ensures Carries(s, Accumulate(m, e, fmt), rowOf, d0, d', fmt)
    ensures KeyIn(e, fmt) in m ==> !MergeRows(m[KeyIn(e, fmt)], e).Unsupported?
  {
    StrictIsRowStep(s, d, e);
    if KeyIn(e, fmt) in m {
      assert CellCarries(s, m, KeyIn(e, fmt), rowOf, d0, d, fmt);
      CarriesMerged(s, m, rowOf, d0, d, e, d', fmt);
    } else {
      CarriesNew(s, m, rowOf, d0, d, e, d', fmt);
    }
  }

  /** The entry is merged into the one recorded for its row. */
  lemma CarriesMerged(s: Schema, m: Merged, rowOf: RowKey -> RowId, d0: Db, d: Db, e: Entry, d': Db, fmt: FloatFormat)
    requires DbOver(s, d0) && Carries(s, m, rowOf, d0, d, fmt)
    requires Mergeable(e) && EntryFits(s, e) && rowOf(KeyIn(e, fmt)) == IdOf(e) && KeyIn(e, fmt) in m
    requires RowStep(e, Get(d, IdOf(e))).Some? && d' == Put(d, IdOf(e), RowStep(e, Get(d, IdOf(e))).value)
    ensures m[KeyIn(e, fmt)].WellShaped() && m[KeyIn(e, fmt)].table == e.table
    ensures Carries(s, Accumulate(m, e, fmt), rowOf, d0, d', fmt)
    ensures !MergeRows(m[KeyIn(e, fmt)], e).Unsupported?
  {
    MergedCell(s, m, rowOf, d0, d, e, d', fmt);
    AccumulateElsewhere(m, e, fmt);
    OthersKept(s, m, rowOf, d0, d, e, d', Accumulate(m, e, fmt), fmt);
  }

  lemma MergedCell(s: Schema, m: Merged, rowOf: RowKey -> RowId, d0: Db, d: Db, e: Entry, d': Db, fmt: FloatFormat)
    requires DbOver(s, d0) && Mergeable(e) && EntryFits(s, e) && rowOf(KeyIn(e, fmt)) == IdOf(e)
    requires KeyIn(e, fmt) in m && CellCarries(s, m, KeyIn(e, fmt), rowOf, d0, d, fmt)
    requires RowStep(e, Get(d, IdOf(e))).Some? && d' == Put(d, IdOf(e), RowStep(e, Get(d, IdOf(e))).value)
    ensures m[KeyIn(e, fmt)].WellShaped() && m[KeyIn(e, fmt)].table == e.table && !MergeRows(m[KeyIn(e, fmt)], e).Unsupported?
    ensures var k, m' := KeyIn(e, fmt), Accumulate(m, e, fmt);
            if k in m' then CellCarries(s, m', k, rowOf, d0, d', fmt) else Get(d0, IdOf(e)) == Get(d', IdOf(e))
  {
    CellStep(s, m, rowOf, d0, d, e, RowStep(e, Get(d, IdOf(e))).value, fmt);
  }

  /** The entry is the first of its row. */
  lemma CarriesNew(s: Schema, m: Merged, rowOf: RowKey -> RowId, d0: Db, d: Db, e: Entry, d': Db, fmt: FloatFormat)
    requires Carries(s, m, rowOf, d0, d, fmt)
    requires Mergeable(e) && EntryFits(s, e) && rowOf(KeyIn(e, fmt)) == IdOf(e) && KeyIn(e, fmt) !in m
    requires RowStep(e, Get(d, IdOf(e))).Some? && d' == Put(d, IdOf(e), RowStep(e, Get(d, IdOf(e))).value)
    ensures Carries(s, Accumulate(m, e, fmt), rowOf, d0, d', fmt)
  {
    NewKeyNewRow(s, m, rowOf, d0, d, e, fmt);
    AccumulateElsewhere(m, e, fmt);
    OthersKept(s, m, rowOf, d0, d, e, d', Accumulate(m, e, fmt), fmt);
  }

  /** Cells of other keys are untouched, and so are the rows they name. */
  lemma OthersKept(s: Schema, m: Merged, rowOf: RowKey -> RowId, d0: Db, d: Db, e: Entry, d': Db, m': Merged, fmt: FloatFormat)
    requires Carries(s, m, rowOf, d0, d, fmt)
    requires e.WellShaped() && e.table.name in s && e.table == s[e.table.name] && rowOf(KeyIn(e, fmt)) == IdOf(e)
    requires forall id: RowId | id != IdOf(e) :: Get(d', id) == Get(d, id)
    requires m' - {KeyIn(e, fmt)} == m - {KeyIn(e, fmt)}
    requires KeyIn(e, fmt) in m' ==> CellCarries(s, m', KeyIn(e, fmt), rowOf, d0, d', fmt)
    requires KeyIn(e, fmt) !in m' ==> Get(d0, IdOf(e)) == Get(d', IdOf(e))
    ensures Carries(s, m', rowOf, d0, d', fmt)
  {
    var k, id := KeyIn(e, fmt), IdOf(e);
    forall l | l in m' ensures CellCarries(s, m', l, rowOf, d0, d', fmt) {
      if l != k {
        assert l in m' - {k} && l in m && m'[l] == (m' - {k})[l] == m[l];
        assert CellCarries(s, m, l, rowOf, d0, d, fmt);
        if rowOf(l) == id {
          SameIdSameString(m[l], e, fmt);
        }
      }
    }
    forall x: RowId | x !in NamedRows(m', rowOf) ensures Get(d0, x) == Get(d', x) {
      if x != id {
        forall l | l in m ensures rowOf(l) != x {
          assert l != k ==> l in m - {k} && l in m';
        }
      }
    }
  }

  /** After any strictly applied prefix the map carries the whole effect, and no pair was unsupported. */
  lemma {:induction false} MergedMapCarries(s: Schema, d0: Db, es: seq<Entry>, rowOf: RowKey -> RowId, fmt: FloatFormat)
    requires DbOver(s, d0) && Fits(s, es) && AllMergeable(es) && Names(rowOf, es, fmt)
    requires ApplyAll(d0, es).Some?
    ensures OverSchema(s, es) && Carries(s, AccumulateAll(s, es, fmt), rowOf, d0, ApplyAll(d0, es).value, fmt)
    ensures NoUnsupported(s, es, fmt)
    decreases |es|
  {
    if es != [] {
      var init, e := es[..|es| - 1], es[|es| - 1];
      MergedMapCarries(s, d0, init, rowOf, fmt);
      ApplyAllKeepsDb(s, d0, init);
      CarriesStep(s, AccumulateAll(s, init, fmt), rowOf, d0, ApplyAll(d0, init).value, e, ApplyAll(d0, es).value, fmt);
    }
  }

  /** No entry meets one of its row that it cannot be merged with. */
  ghost predicate NoUnsupported(s: Schema, es: seq<Entry>, fmt: FloatFormat)
    requires OverSchema(s, es)
    decreases |es|
  {
    es == [] ||
    (var init, e := es[..|es| - 1], es[|es| - 1];
     var m := AccumulateAll(s, init, fmt);
     NoUnsupported(s, init, fmt) && (KeyIn(e, fmt) in m ==> !MergeRows(m[KeyIn(e, fmt)], e).Unsupported?))
  }

  // ----- The output, in any order -----

  lemma WrittenFacts(e: Entry, r: Option<Row>, fmt: FloatFormat)
    requires e.WellShaped()
    ensures e.Written().WellShaped() && e.Written().table == e.table && e.Written().op == e.op
    ensures IdOf(e.Written()) == IdOf(e) && KeyIn(e.Written(), fmt) == KeyIn(e, fmt)
    ensures RowStep(e.Written(), r) == RowStep(e, r)
  {
  }

  /** `out` holds every merged entry once, as written, in the order `keys` of the map. */
  ghost predicate Lists(m: Merged, keys: seq<RowKey>, out: seq<Entry>) {
    && |keys| == |out|
    && (forall i, j | 0 <= i < j < |keys| :: keys[i] != keys[j])
    && (forall i | 0 <= i < |keys| :: keys[i] in m && out[i] == m[keys[i]].Written())
    && (forall k | k in m :: k in keys)
  }

  /** Row by row, the listed entries do what the map carries. */
  lemma ListedCarries(s: Schema, m: Merged, rowOf: RowKey -> RowId, d0: Db, d: Db, keys: seq<RowKey>, out: seq<Entry>, fmt: FloatFormat)
    requires Carries(s, m, rowOf, d0, d, fmt) && Lists(m, keys, out)
    ensures Fits(s, out) && DistinctIds(out) && Pointwise(d0, out, d)
    ensures forall i | 0 <= i < |out| :: IdOf(out[i]) == rowOf(keys[i])
  {
    forall i | 0 <= i < |out|
      ensures EntryFits(s, out[i]) && IdOf(out[i]) == rowOf(keys[i])
      ensures RowStep(out[i], Get(d0, IdOf(out[i]))) == Some(Get(d, IdOf(out[i])))
    {
      assert CellCarries(s, m, keys[i], rowOf, d0, d, fmt);
      WrittenFacts(m[keys[i]], Get(d0, rowOf(keys[i])), fmt);
    }
    forall id: RowId | !Touches(out, id) ensures Get(d0, id) == Get(d, id) {
      ListedTouches(m, rowOf, keys, out, id);
    }
    forall i, j | 0 <= i < j < |out| ensures IdOf(out[i]) != IdOf(out[j]) {
      if IdOf(out[i]) == IdOf(out[j]) {
        CellsNameRowsOnce(s, m, keys[i], keys[j], rowOf, d0, d, fmt);
      }
    }
  }

  lemma ListedTouches(m: Merged, rowOf: RowKey -> RowId, keys: seq<RowKey>, out: seq<Entry>, id: RowId)
    requires Lists(m, keys, out) && Shaped(out) && forall i | 0 <= i < |out| :: IdOf(out[i]) == rowOf(keys[i])
    ensures Touches(out, id) <==> id in NamedRows(m, rowOf)
  {
    if id in NamedRows(m, rowOf) {
      var k :| k in m && rowOf(k) == id;
      assert k in keys;
      var i :| 0 <= i < |keys| && keys[i] == k;
      assert IdOf(out[i]) == id;
    }
    if Touches(out, id) {
      var i :| 0 <= i < |out| && IdOf(out[i]) == id;
      assert keys[i] in m;
    }
  }

  /**
   Merging keeps the meaning: a changeset that applies strictly to d0 is
   replaced by one that names each row once and, in any order, takes d0 to
   the same state; no pair of entries is unsupported on the way.
   */
  lemma ConcatApplies(s: Schema, d0: Db, es: seq<Entry>, keys: seq<RowKey>, out: seq<Entry>, fmt: FloatFormat)
    requires DbOver(s, d0) && Fits(s, es) && AllMergeable(es) && ToldApart(es, fmt)
    requires ApplyAll(d0, es).Some?
    requires OverSchema(s, es) && Lists(AccumulateAll(s, es, fmt), keys, out)
    ensures Fits(s, out) && DistinctIds(out)
    ensures ApplyAll(d0, out) == ApplyAll(d0, es)
    ensures NoUnsupported(s, es, fmt)
  {
    var rowOf := NamingExists(es, fmt);
    MergedMapCarries(s, d0, es, rowOf, fmt);
    var d := ApplyAll(d0, es).value;
    ListedCarries(s, AccumulateAll(s, es, fmt), rowOf, d0, d, keys, out, fmt);
    ApplyAllIffPointwise(s, d0, out, d);
  }

  // ----- A chain of diffs merges to the diff of its ends -----

  /** Each entry is the canonical one between the states before and after it. */
  ghost predicate CanonicalRun(s: Schema, d0: Db, es: seq<Entry>)
    requires Shaped(es)
    decreases |es|
  {
    es == [] ||
    (var init, e := es[..|es| - 1], es[|es| - 1];
     && CanonicalRun(s, d0, init)
     && ApplyAll(d0, init).Some? && ApplyAll(d0, es).Some?
     && IsRowDiff(s, ApplyAll(d0, init).value, ApplyAll(d0, es).value, IdOf(e), e))
  }

  lemma {:induction false} CanonicalRunConcat(s: Schema, d0: Db, a: seq<Entry>, b: seq<Entry>)
    requires Shaped(a) && Shaped(b) && Shaped(a + b)
    requires CanonicalRun(s, d0, a) && ApplyAll(d0, a).Some? && CanonicalRun(s, ApplyAll(d0, a).value, b)
    ensures CanonicalRun(s, d0, a + b)
    decreases |b|
  {
    if b == [] {
      assert a + b == a;
    } else {
      var b' := b[..|b| - 1];
      assert (a + b)[..|a + b| - 1] == a + b';
      CanonicalRunConcat(s, d0, a, b');
      ApplyAllConcat(d0, a, b');
      ApplyAllConcat(d0, a, b);
    }
  }

  lemma CanonicalStep(s: Schema, b: Db, m: Db, init: seq<Entry>, d: Db, e: Entry)
    requires ValidSchema(s) && DbOver(s, d)
    requires Shaped(init) && Pointwise(b, init, d)
    requires e.WellShaped() && !Touches(init, IdOf(e)) && IsRowDiff(s, b, m, IdOf(e), e)
    ensures EntryFits(s, e) && Mergeable(e)
    ensures Strict(d, e).Some? && IsRowDiff(s, d, Strict(d, e).value, IdOf(e), e)
  {
    var id := IdOf(e);
    assert Get(d, id) == Get(b, id);
    IsRowDiffFacts(s, b, m, id, e);
    RowDiffMergeable(id, s[id.table], Get(b, id), Get(m, id));
    StrictIsRowStep(s, d, e);
  }

  ghost predicate RunsCanonically(s: Schema, b: Db, es: seq<Entry>) {
    Fits(s, es) && AllMergeable(es) && CanonicalRun(s, b, es) && ApplyAll(b, es).Some?
  }

  lemma RunsSnoc(s: Schema, b: Db, m: Db, init: seq<Entry>, e: Entry)
    requires ValidSchema(s) && DbOver(s, b) && RunsCanonically(s, b, init)
    requires Shaped(init + [e]) && DistinctIds(init + [e]) && e.WellShaped() && IsRowDiff(s, b, m, IdOf(e), e)
    ensures RunsCanonically(s, b, init + [e])
  {
    var es := init + [e];
    assert es[..|es| - 1] == init;
    DistinctSnoc(init, e);
    var d := ApplyAll(b, init).value;
    AppliedIsPointwise(s, b, init, d);
    ApplyAllKeepsDb(s, b, init);
    CanonicalStep(s, b, m, init, d, e);
  }

  lemma {:induction false} DiffIsCanonicalRun(s: Schema, b: Db, m: Db, es: seq<Entry>)
    requires ValidSchema(s) && DbOver(s, b)
    requires Shaped(es) && DistinctIds(es)
    requires forall i | 0 <= i < |es| :: IsRowDiff(s, b, m, IdOf(es[i]), es[i])
    ensures RunsCanonically(s, b, es)
    decreases |es|
  {
    if es != [] {
      var init, e := es[..|es| - 1], es[|es| - 1];
      assert es == init + [e];
      DiffIsCanonicalRun(s, b, m, init);
      RunsSnoc(s, b, m, init, e);
    }
  }

  /** Every merged entry is, as written, the canonical one between d0 and d. */
  ghost predicate CanonicalCells(s: Schema, m: Merged, rowOf: RowKey -> RowId, d0: Db, d: Db) {
    forall k | k in m :: IsRowDiff(s, d0, d, rowOf(k), m[k].Written())
  }

  lemma CanonicalCellStep(s: Schema, m: Merged, rowOf: RowKey -> RowId, d0: Db, d: Db, e: Entry, d': Db, fmt: FloatFormat)
    requires ValidSchema(s) && DbOver(s, d0)
    requires Carries(s, m, rowOf, d0, d, fmt) && CanonicalCells(s, m, rowOf, d0, d)
    requires EntryFits(s, e) && rowOf(KeyIn(e, fmt)) == IdOf(e) && IsRowDiff(s, d, d', IdOf(e), e)
    requires forall id: RowId | id != IdOf(e) :: Get(d', id) == Get(d, id)
    requires KeyIn(e, fmt) in m ==> m[KeyIn(e, fmt)].WellShaped() && m[KeyIn(e, fmt)].table == e.table
    requires KeyIn(e, fmt) in m ==> !MergeRows(m[KeyIn(e, fmt)], e).Unsupported?
    ensures CanonicalCells(s, Accumulate(m, e, fmt), rowOf, d0, d')
  {
    var k, id := KeyIn(e, fmt), IdOf(e);
    var m' := Accumulate(m, e, fmt);
    if k in m {
      assert IsRowDiff(s, d0, d, id, m[k].Written());
      MergeCanonical(id, s[id.table], m[k], e, Get(d0, id), Get(d, id), Get(d', id));
    } else {
      NewKeyNewRow(s, m, rowOf, d0, d, e, fmt);
    }
    forall l | l in m' ensures IsRowDiff(s, d0, d', rowOf(l), m'[l].Written()) {
      if l != k {
        assert IsRowDiff(s, d0, d, rowOf(l), m[l].Written());
        assert CellCarries(s, m, l, rowOf, d0, d, fmt);
        if rowOf(l) == id {
          SameIdSameString(m[l], e, fmt);
        }
      }
    }
  }

  ghost predicate CarriesCanonically(s: Schema, m: Merged, rowOf: RowKey -> RowId, d0: Db, d: Db, fmt: FloatFormat) {
    Carries(s, m, rowOf, d0, d, fmt) && CanonicalCells(s, m, rowOf, d0, d)
  }

  lemma CanonicalMapStep(s: Schema, m: Merged, rowOf: RowKey -> RowId, d0: Db, d: Db, e: Entry, d': Db, fmt: FloatFormat)
    requires ValidSchema(s) && DbOver(s, d0) && DbOver(s, d) && CarriesCanonically(s, m, rowOf, d0, d, fmt)
    requires Mergeable(e) && EntryFits(s, e) && rowOf(KeyIn(e, fmt)) == IdOf(e)
    requires Strict(d, e) == Some(d') && IsRowDiff(s, d, d', IdOf(e), e)
    ensures KeyIn(e, fmt) in m ==> m[KeyIn(e, fmt)].WellShaped() && m[KeyIn(e, fmt)].table == e.table
    ensures CarriesCanonically(s, Accumulate(m, e, fmt), rowOf, d0, d', fmt)
    ensures KeyIn(e, fmt) in m ==> !MergeRows(m[KeyIn(e, fmt)], e).Unsupported?
  {
    CarriesStep(s, m, rowOf, d0, d, e, d', fmt);
    StrictIsRowStep(s, d, e);
    CanonicalCellStep(s, m, rowOf, d0, d, e, d', fmt);
  }

  lemma {:induction false} CanonicalMap(s: Schema, d0: Db, es: seq<Entry>, rowOf: RowKey -> RowId, fmt: FloatFormat)
    requires ValidSchema(s) && DbOver(s, d0) && Fits(s, es) && AllMergeable(es)
    requires Names(rowOf, es, fmt) && CanonicalRun(s, d0, es) && ApplyAll(d0, es).Some?
    ensures OverSchema(s, es)
    ensures CarriesCanonically(s, AccumulateAll(s, es, fmt), rowOf, d0, ApplyAll(d0, es).value, fmt)
    ensures NoUnsupported(s, es, fmt)
    decreases |es|
  {
    if es != [] {
      var init, e := es[..|es| - 1], es[|es| - 1];
      CanonicalMap(s, d0, init, rowOf, fmt);
      ApplyAllKeepsDb(s, d0, init);
      CanonicalMapStep(s, AccumulateAll(s, init, fmt), rowOf, d0, ApplyAll(d0, init).value, e, ApplyAll(d0, es).value, fmt);
    }
  }

  function Flatten(inputs: seq<seq<Entry>>): seq<Entry> {
    if inputs == [] then [] else Flatten(inputs[..|inputs| - 1]) + inputs[|inputs| - 1]
  }

  /** Consecutive diffs of a chain of databases. */
  ghost predicate IsChain(s: Schema, dbs: seq<Db>, diffs: seq<seq<Entry>>) {
    && |dbs| == |diffs| + 1
    && (forall i | 0 <= i < |dbs| :: DbOver(s, dbs[i]))
    && (forall i | 0 <= i < |diffs| :: IsDiff(s, dbs[i], dbs[i + 1], diffs[i]))
  }

  /** What a changeset that goes canonically from a to b looks like. */
  ghost predicate GoesTo(s: Schema, a: Db, es: seq<Entry>, b: Db) {
    Fits(s, es) && AllMergeable(es) && CanonicalRun(s, a, es) && ApplyAll(a, es) == Some(b)
  }

  lemma ChainStep(s: Schema, d0: Db, es: seq<Entry>, d: Db, fs: seq<Entry>, d': Db)
    requires ValidSchema(s) && DbOver(s, d) && DbOver(s, d') && GoesTo(s, d0, es, d) && IsDiff(s, d, d', fs)
    ensures GoesTo(s, d0, es + fs, d')
  {
    DiffIsCanonicalRun(s, d, d', fs);
    DiffApplies(s, d, d', fs);
    ApplyAllConcat(d0, es, fs);
    CanonicalRunConcat(s, d0, es, fs);
  }

  lemma ChainInit(s: Schema, dbs: seq<Db>, diffs: seq<seq<Entry>>)
    requires IsChain(s, dbs, diffs) && diffs != []
    ensures IsChain(s, dbs[..|diffs|], diffs[..|diffs| - 1])
    ensures DbOver(s, dbs[|diffs| - 1]) && DbOver(s, dbs[|diffs|])
    ensures IsDiff(s, dbs[|diffs| - 1], dbs[|diffs|], diffs[|diffs| - 1])
  {
    assert forall i | 0 <= i < |diffs| - 1 :: IsDiff(s, dbs[i], dbs[i + 1], diffs[i]);
  }

  /** The last diff continues what the others did. */
  lemma ChainNext(s: Schema, dbs: seq<Db>, diffs: seq<seq<Entry>>)
    requires ValidSchema(s) && IsChain(s, dbs, diffs) && diffs != []
    requires GoesTo(s, dbs[0], Flatten(diffs[..|diffs| - 1]), dbs[|diffs| - 1])
    ensures GoesTo(s, dbs[0], Flatten(diffs), dbs[|diffs|])
  {
    var n := |diffs| - 1;
    ChainStep(s, dbs[0], Flatten(diffs[..n]), dbs[n], diffs[n], dbs[n + 1]);
  }

  lemma ChainOfNone(s: Schema, d: Db)
    ensures GoesTo(s, d, Flatten([]), d)
  {
  }

  lemma {:induction false} ChainGoesToEnd(s: Schema, dbs: seq<Db>, diffs: seq<seq<Entry>>)
    requires ValidSchema(s) && IsChain(s, dbs, diffs)
    ensures GoesTo(s, dbs[0], Flatten(diffs), dbs[|dbs| - 1])
    decreases |diffs|
  {
    if diffs == [] {
      ChainOfNone(s, dbs[0]);
    } else {
      ChainInit(s, dbs, diffs);
      ChainGoesToEnd(s, dbs[..|diffs|], diffs[..|diffs| - 1]);
      ChainNext(s, dbs, diffs);
    }
  }

  /** Every row of the database has a clear key. */
  ghost predicate ClearRows(s: Schema, db: Db, fmt: FloatFormat)
    requires DbOver(s, db)
  {
    forall id | id in db :: ClearKey(s[id.table].primaryKeys, db[id], fmt)
  }

  lemma EntryOfClearRow(s: Schema, b: Db, m: Db, e: Entry, fmt: FloatFormat)
    requires ValidSchema(s) && DbOver(s, b) && DbOver(s, m) && ClearRows(s, b, fmt) && ClearRows(s, m, fmt)
    requires e.WellShaped() && IsRowDiff(s, b, m, IdOf(e), e)
    ensures ClearKey(e.table.primaryKeys, e.KeyValues(), fmt)
  {
    var id, pks, vals := IdOf(e), e.table.primaryKeys, e.KeyValues();
    IsRowDiffFacts(s, b, m, id, e);
    var row := if id in b then b[id] else m[id];
    assert ClearKey(pks, row, fmt) && id.key == KeyOf(pks, row);
    forall i | 0 <= i < |pks| && pks[i] ensures vals[i] == row[i] {
      assert KeyOf(pks, vals)[i] == KeyOf(pks, row)[i];
    }
  }

  lemma {:induction false} ChainIsClear(s: Schema, dbs: seq<Db>, diffs: seq<seq<Entry>>, fmt: FloatFormat)
    requires ValidSchema(s) && IsChain(s, dbs, diffs) && forall i | 0 <= i < |dbs| :: ClearRows(s, dbs[i], fmt)
    ensures OverSchema(s, Flatten(diffs)) && ClearKeys(Flatten(diffs), fmt)
    decreases |diffs|
  {
    if diffs != [] {
      var n := |diffs| - 1;
      var init, last := diffs[..n], diffs[n];
      ChainInit(s, dbs, diffs);
      ChainIsClear(s, dbs[..n + 1], init, fmt);
      DiffFits(s, dbs[n], dbs[n + 1], last, Changed(dbs[n], dbs[n + 1]));
      forall j | 0 <= j < |last| ensures ClearKey(last[j].table.primaryKeys, last[j].KeyValues(), fmt) {
        EntryOfClearRow(s, dbs[n], dbs[n + 1], last[j], fmt);
      }
    }
  }

  lemma ListedIsDiff(s: Schema, m: Merged, rowOf: RowKey -> RowId, d0: Db, d: Db, keys: seq<RowKey>, out: seq<Entry>, fmt: FloatFormat)
    requires ValidSchema(s) && CarriesCanonically(s, m, rowOf, d0, d, fmt) && Lists(m, keys, out)
    ensures IsDiff(s, d0, d, out)
  {
    ListedCarries(s, m, rowOf, d0, d, keys, out, fmt);
    forall i | 0 <= i < |out|
      ensures IsRowDiff(s, d0, d, IdOf(out[i]), out[i]) && IdOf(out[i]) in Changed(d0, d)
    {
      assert IsRowDiff(s, d0, d, rowOf(keys[i]), m[keys[i]].Written());
      IsRowDiffFacts(s, d0, d, IdOf(out[i]), out[i]);
    }
    forall id | id in Changed(d0, d) ensures Touches(out, id) {
      assert id in NamedRows(m, rowOf);
      ListedTouches(m, rowOf, keys, out, id);
    }
  }

  /**
   Merging the diffs of a chain of databases gives exactly the diff between its
   first and its last database: changes that cancel vanish, every other row has
   its one canonical entry.
   */
  lemma ConcatOfChain(s: Schema, dbs: seq<Db>, diffs: seq<seq<Entry>>, keys: seq<RowKey>, out: seq<Entry>, fmt: FloatFormat)
    requires ValidSchema(s) && IsChain(s, dbs, diffs)
    requires Shaped(Flatten(diffs)) && ToldApart(Flatten(diffs), fmt)
    requires OverSchema(s, Flatten(diffs)) && Lists(AccumulateAll(s, Flatten(diffs), fmt), keys, out)
    ensures IsDiff(s, dbs[0], dbs[|dbs| - 1], out)
    ensures NoUnsupported(s, Flatten(diffs), fmt)
  {
    var es, d0, d := Flatten(diffs), dbs[0], dbs[|dbs| - 1];
    ChainGoesToEnd(s, dbs, diffs);
    var rowOf := NamingExists(es, fmt);
    CanonicalMap(s, d0, es, rowOf, fmt);
    ListedIsDiff(s, AccumulateAll(s, es, fmt), rowOf, d0, d, keys, out, fmt);
  }

  /** The same for databases whose keys are clear, with nothing assumed about the strings. */
  lemma ConcatOfClearChain(s: Schema, dbs: seq<Db>, diffs: seq<seq<Entry>>, keys: seq<RowKey>, out: seq<Entry>, fmt: FloatFormat)
    requires ValidSchema(s) && IsChain(s, dbs, diffs) && forall i | 0 <= i < |dbs| :: ClearRows(s, dbs[i], fmt)
    requires OverSchema(s, Flatten(diffs)) && Lists(AccumulateAll(s, Flatten(diffs), fmt), keys, out)
    ensures IsDiff(s, dbs[0], dbs[|dbs| - 1], out)
    ensures NoUnsupported(s, Flatten(diffs), fmt)
  {
    ChainIsClear(s, dbs, diffs, fmt);
    ClearKeysToldApart(s, Flatten(diffs), fmt);
    ConcatOfChain(s, dbs, diffs, keys, out, fmt);
  }
}
