/** The rebased changeset applies to theirs and gives the three-way merge. */
module RebaseMerge {
  import opened Values
  import opened Rows
  import opened Diff
  import opened KeyMapping
  import opened RebaseRules
  import opened RebaseRows
  import opened RebaseKeys

  /** The three databases with the record of theirs and the key maps built for ours. */
  datatype Plan = Plan(d: Sides, orders: Orders, maps: KeyMaps) {
    ghost predicate Keyed() {
      d.Keyed()
    }

    ghost function Info(): Info
      requires Keyed()
    {
      InfoFor(d.toTheirs)
    }

    ghost predicate Valid() {
      Keyed() && MapsBuilt(Info(), d.toOurs, orders, maps)
    }

    ghost function Cascade(t: Name): Cascade
      requires Keyed()
    {
      CascadeOf(t, InfoOf(t, d.toTheirs), d.toOurs, orders)
    }

    /** Where the row of one of our inserts goes. */
    ghost function NewId(id: RowId): RowId
      requires Keyed()
    {
      if id.table in Info() && id.table in d.s && HasKey(d.s[id.table]) && |id.key| == d.s[id.table].ColumnCount()
      then KeyId(d.s[id.table], NewKey(IdsOf(maps, id.table), AsInt(id.key[KeyColumn(d.s[id.table].primaryKeys)])))
      else id
    }
  }

  /** New keys are distinct and none of the numbers handed out is the key of a row theirs has. */
  ghost predicate KeysFree(p: Plan)
    requires p.Keyed()
  {
    forall t | t in p.Info() && t in p.d.s ::
      && InjectiveOn(p.Cascade(t).ids, InsKeys(t, p.d.toOurs))
      && forall k | Start(InfoOf(t, p.d.toTheirs)) <= k < p.Cascade(t).free :: KeyId(p.d.s[t], k) !in p.d.theirs
  }

  ghost predicate Rewritable(p: Plan)
    requires p.Keyed()
  {
    Rebasable(p.d.toOurs, p.Info())
  }

  /** Our i-th entry rewritten. */
  ghost function Rewritten(p: Plan, i: int): Option<Entry>
    requires p.Keyed() && Rewritable(p) && 0 <= i < |p.d.toOurs|
  {
    RebaseOne(p.d.toOurs[i], p.Info(), p.maps).entry
  }

  lemma OursRewritable(p: Plan)
    requires p.Keyed()
    ensures Rewritable(p)
  {
    var es := p.d.toOurs;
    DiffKeyed(p.d.s, p.d.base, p.d.ours, es);
    forall i | 0 <= i < |es| ensures RebasableEntry(es[i], p.Info()) {
      if es[i].table.name in p.Info() {
        InfoFitsTable(p.d, es[i].table.name);
      }
    }
  }

  /** Theirs left the tables they did not touch alone. */
  lemma UntouchedTable(d: Sides, id: RowId)
    requires d.Valid() && id.table !in TableNames(d.toTheirs)
    ensures Get(d.base, id) == Get(d.theirs, id)
  {
    assert !Touches(d.toTheirs, id);
    assert id !in Changed(d.base, d.theirs);
  }

  // ----- Each rewritten entry does its share of the merge -----

  /** Our i-th entry belongs to a row, with its three states. */
  lemma OurEntry(p: Plan, i: int)
    requires p.Keyed() && 0 <= i < |p.d.toOurs|
    ensures var e := p.d.toOurs[i];
            && EntryFits(p.d.s, e) && HasKey(e.table) && OneKey(e.table.primaryKeys) && e.table.name in p.d.s
            && IdOf(e) == KeyId(e.table, Pk(e))
            && OptionFits(IdOf(e), e.table, Get(p.d.base, IdOf(e)))
            && OptionFits(IdOf(e), e.table, Get(p.d.theirs, IdOf(e)))
            && OptionFits(IdOf(e), e.table, Get(p.d.ours, IdOf(e)))
            && RowDiff(e.table, Get(p.d.base, IdOf(e)), Get(p.d.ours, IdOf(e))) == Some(e)
  {
    var e := p.d.toOurs[i];
    DiffKeyed(p.d.s, p.d.base, p.d.ours, p.d.toOurs);
    assert IsRowDiff(p.d.s, p.d.base, p.d.ours, IdOf(e), e);
  }

  /** Key facts for one of our updates or deletions in a table theirs touched. */
  lemma ChangeKey(p: Plan, i: int)
    requires p.Valid() && 0 <= i < |p.d.toOurs| && p.d.toOurs[i].op != Insert && p.d.toOurs[i].table.name in p.Info()
    ensures var e := p.d.toOurs[i];
            && EntryFits(p.d.s, e) && HasKey(e.table)
            && InfoFits(p.Info()[e.table.name], e.table)
            && Knows(p.Info()[e.table.name], Pk(e), Get(p.d.base, IdOf(e)), Get(p.d.theirs, IdOf(e)))
            && ChangeKeyOk(p.Info()[e.table.name], IdsOf(p.maps, e.table.name), Pk(e))
  {
    var e := p.d.toOurs[i];
    var t := e.table.name;
    OurEntry(p, i);
    InfoKnows(p.d, t, Pk(e));
    InfoFitsTable(p.d, t);
    TableKeys(p.d, t, p.orders);
    assert Pk(e) in OtherKeys(t, p.d.toOurs);
  }

  lemma ChangeIsMerged(p: Plan, i: int)
    requires p.Valid() && Rewritable(p) && 0 <= i < |p.d.toOurs| && p.d.toOurs[i].op != Insert
    ensures var e := p.d.toOurs[i];
            e.WellShaped() &&
            RowMerged(IdOf(e), e.table, e.op, Rewritten(p, i), Get(p.d.base, IdOf(e)), Get(p.d.theirs, IdOf(e)), Get(p.d.ours, IdOf(e)))
  {
    var e := p.d.toOurs[i];
    OurEntry(p, i);
    var id, tbl := IdOf(e), e.table;
    var b, t, o := Get(p.d.base, id), Get(p.d.theirs, id), Get(p.d.ours, id);
    if tbl.name !in p.Info() {
      UntouchedTable(p.d, id);
      UntouchedMerged(id, tbl, e, b, o);
    } else {
      ChangeKey(p, i);
      var ti, ids := p.Info()[tbl.name], IdsOf(p.maps, tbl.name);
      if e.op == Update {
        UpdateMerged(id, tbl, e, ti, ids, b, t, o);
      } else {
        DeleteMerged(id, tbl, e, ti, ids, b, t, o);
      }
    }
  }

  /** The number of our i-th entry after renumbering. */
  ghost function NewNumber(p: Plan, i: int): int
    requires p.Keyed() && 0 <= i < |p.d.toOurs| && p.d.toOurs[i].WellShaped() && HasKey(p.d.toOurs[i].table)
  {
    var e := p.d.toOurs[i];
    if e.table.name in p.Info() then NewKey(IdsOf(p.maps, e.table.name), Pk(e)) else Pk(e)
  }

  lemma NewIdIsNewNumber(p: Plan, i: int)
    requires p.Keyed() && 0 <= i < |p.d.toOurs|
    ensures var e := p.d.toOurs[i];
            e.WellShaped() && HasKey(e.table) && p.NewId(IdOf(e)) == KeyId(e.table, NewNumber(p, i))
  {
    OurEntry(p, i);
    var e := p.d.toOurs[i];
    assert KeyId(e.table, Pk(e)).key[KeyColumn(e.table.primaryKeys)] == Int(Pk(e));
  }

  lemma InsertIsMoved(p: Plan, i: int)
    requires p.Valid() && Rewritable(p) && 0 <= i < |p.d.toOurs| && p.d.toOurs[i].op == Insert
    ensures var e := p.d.toOurs[i];
            e.WellShaped() && HasKey(e.table) && Rewritten(p, i).Some? &&
            InsertMoved(KeyId(e.table, NewNumber(p, i)), e.table, e.newValues, NewNumber(p, i), Rewritten(p, i).value)
  {
    if p.d.toOurs[i].table.name in p.Info() {
      InsertRenumbers(p, i);
    } else {
      InsertPasses(p, i);
    }
  }

  lemma InsertRenumbers(p: Plan, i: int)
    requires p.Keyed() && 0 <= i < |p.d.toOurs| && p.d.toOurs[i].op == Insert && p.d.toOurs[i].table.name in p.Info()
    ensures var e := p.d.toOurs[i];
            e.WellShaped() && HasKey(e.table) &&
            InsertMoved(KeyId(e.table, NewNumber(p, i)), e.table, e.newValues, NewNumber(p, i),
                        RebasedInsert(e, IdsOf(p.maps, e.table.name)))
  {
    OurEntry(p, i);
    InsertMergesRow(p.d.toOurs[i].table, p.d.toOurs[i].newValues, NewNumber(p, i));
  }

  lemma InsertPasses(p: Plan, i: int)
    requires p.Keyed() && 0 <= i < |p.d.toOurs| && p.d.toOurs[i].op == Insert && p.d.toOurs[i].table.name !in p.Info()
    ensures var e := p.d.toOurs[i];
            e.WellShaped() && HasKey(e.table) && InsertMoved(KeyId(e.table, NewNumber(p, i)), e.table, e.newValues, NewNumber(p, i), e)
  {
    var e := p.d.toOurs[i];
    OurEntry(p, i);
    EntryKey(p.d.s, p.d.base, p.d.ours, e);
    InsertKept(IdOf(e), e.table, e.newValues);
  }

  // ----- Where our inserts go -----

  /** Key facts for one of our inserts in a table theirs touched. */
  lemma InsertKey(p: Plan, i: int)
    requires p.Valid() && 0 <= i < |p.d.toOurs| && p.d.toOurs[i].op == Insert && p.d.toOurs[i].table.name in p.Info()
    ensures var e := p.d.toOurs[i];
            var t := e.table.name;
            && EntryFits(p.d.s, e) && HasKey(e.table)
            && Pk(e) in InsKeys(t, p.d.toOurs)
            && NewNumber(p, i) == NewKey(p.Cascade(t).ids, Pk(e))
            && SoundKeys(InfoOf(t, p.d.toTheirs), InsKeys(t, p.d.toOurs), OtherKeys(t, p.d.toOurs), p.Cascade(t).ids, p.Cascade(t).free)
  {
    OurEntry(p, i);
    TableKeys(p.d, p.d.toOurs[i].table.name, p.orders);
  }

  lemma InsertGoesToFreeKey(p: Plan, i: int)
    requires p.Valid() && KeysFree(p) && 0 <= i < |p.d.toOurs| && p.d.toOurs[i].op == Insert
    ensures p.d.toOurs[i].WellShaped() && HasKey(p.d.toOurs[i].table)
    ensures KeyId(p.d.toOurs[i].table, NewNumber(p, i)) !in p.d.theirs
  {
    OurEntry(p, i);
    if p.d.toOurs[i].table.name in p.Info() {
      RenumberedIsFree(p, i);
    } else {
      UntouchedTable(p.d, IdOf(p.d.toOurs[i]));
    }
  }

  lemma RenumberedIsFree(p: Plan, i: int)
    requires p.Valid() && KeysFree(p) && 0 <= i < |p.d.toOurs| && p.d.toOurs[i].op == Insert && p.d.toOurs[i].table.name in p.Info()
    ensures p.d.toOurs[i].WellShaped() && HasKey(p.d.toOurs[i].table)
    ensures KeyId(p.d.toOurs[i].table, NewNumber(p, i)) !in p.d.theirs
  {
    var t := p.d.toOurs[i].table.name;
    OurEntry(p, i);
    InsertKey(p, i);
    if NewNumber(p, i) < Start(InfoOf(t, p.d.toTheirs)) || p.Cascade(t).free <= NewNumber(p, i) {
      KeptIsFree(p, i);
    }
  }

  /** An insert that keeps its number, which theirs did not insert. */
  lemma KeptIsFree(p: Plan, i: int)
    requires p.Keyed() && 0 <= i < |p.d.toOurs| && p.d.toOurs[i].op == Insert && p.d.toOurs[i].WellShaped() && HasKey(p.d.toOurs[i].table)
    requires NewNumber(p, i) == Pk(p.d.toOurs[i]) && Pk(p.d.toOurs[i]) !in InfoOf(p.d.toOurs[i].table.name, p.d.toTheirs).inserted
    ensures KeyId(p.d.toOurs[i].table, NewNumber(p, i)) !in p.d.theirs
  {
    OurEntry(p, i);
    KnowsInserted(p.d, p.d.toOurs[i].table.name, NewNumber(p, i));
  }

  lemma InsertsGoApart(p: Plan, i: int, j: int)
    requires p.Valid() && KeysFree(p) && 0 <= i < j < |p.d.toOurs|
    requires p.d.toOurs[i].op == Insert && p.d.toOurs[j].op == Insert
    requires p.d.toOurs[i].table == p.d.toOurs[j].table
    ensures p.d.toOurs[i].WellShaped() && HasKey(p.d.toOurs[i].table) && p.d.toOurs[j].WellShaped()
    ensures NewNumber(p, i) != NewNumber(p, j)
  {
    var t := p.d.toOurs[i].table.name;
    OurEntry(p, i);
    OurEntry(p, j);
    DiffKeysOnce(p.d.s, p.d.base, p.d.ours, p.d.toOurs, t);
    if t in p.Info() {
      InsertKey(p, i);
      InsertKey(p, j);
    }
  }

  // ----- The rewritten changeset -----

  /** A written changeset with the positions in ours its entries come from. */
  ghost predicate IsOutput(p: Plan, out: seq<Entry>, src: seq<nat>)
    requires p.Keyed() && Rewritable(p)
  {
    ListsRebased(p.d.toOurs, p.Info(), p.maps, out, src)
  }

  /** The row an output entry names. */
  ghost function TargetId(p: Plan, i: int): RowId
    requires p.Keyed() && 0 <= i < |p.d.toOurs| && p.d.toOurs[i].WellShaped() && HasKey(p.d.toOurs[i].table)
  {
    if p.d.toOurs[i].op == Insert then KeyId(p.d.toOurs[i].table, NewNumber(p, i)) else IdOf(p.d.toOurs[i])
  }

  /** The j-th output entry is the rewritten form of one of ours. */
  lemma OutputEntry(p: Plan, out: seq<Entry>, src: seq<nat>, j: int)
    requires p.Valid() && Rewritable(p) && IsOutput(p, out, src) && 0 <= j < |out|
    ensures var i, x := src[j], out[j];
            && 0 <= i < |p.d.toOurs| && Rewritten(p, i) == Some(x)
            && p.d.toOurs[i].WellShaped() && HasKey(p.d.toOurs[i].table)
            && EntryFits(p.d.s, x) && x.op == p.d.toOurs[i].op && x.table == p.d.toOurs[i].table
            && IdOf(x) == TargetId(p, i)
  {
    var i := src[j];
    OurEntry(p, i);
    if p.d.toOurs[i].op == Insert {
      InsertIsMoved(p, i);
    } else {
      ChangeIsMerged(p, i);
    }
  }

  /** With free keys, every output entry applies to theirs' row. */
  lemma OutputStep(p: Plan, out: seq<Entry>, src: seq<nat>, j: int)
    requires p.Valid() && Rewritable(p) && KeysFree(p) && IsOutput(p, out, src) && 0 <= j < |out| && out[j].WellShaped()
    ensures RowStep(out[j], Get(p.d.theirs, IdOf(out[j]))).Some?
    ensures out[j].op == Insert <==> IdOf(out[j]) !in p.d.theirs
  {
    OutputEntry(p, out, src, j);
    var i := src[j];
    if p.d.toOurs[i].op == Insert {
      InsertIsMoved(p, i);
      InsertGoesToFreeKey(p, i);
    } else {
      ChangeIsMerged(p, i);
    }
  }

  lemma OutputFits(p: Plan, out: seq<Entry>, src: seq<nat>)
    requires p.Valid() && Rewritable(p) && IsOutput(p, out, src)
    ensures Fits(p.d.s, out)
  {
    forall j | 0 <= j < |out| ensures EntryFits(p.d.s, out[j]) {
      OutputEntry(p, out, src, j);
    }
  }

  lemma OutputApart(p: Plan, out: seq<Entry>, src: seq<nat>, j: int, k: int)
    requires p.Valid() && Rewritable(p) && KeysFree(p) && IsOutput(p, out, src) && 0 <= j < k < |out|
    ensures out[j].WellShaped() && out[k].WellShaped() && IdOf(out[j]) != IdOf(out[k])
  {
    OutputEntry(p, out, src, j);
    OutputEntry(p, out, src, k);
    OutputStep(p, out, src, j);
    OutputStep(p, out, src, k);
    var a, b := src[j], src[k];
    var e, f := p.d.toOurs[a], p.d.toOurs[b];
    assert a != b && IdOf(e) != IdOf(f);
    if e.op == Insert && f.op == Insert && e.table == f.table {
      InsertsGoApart(p, if a < b then a else b, if a < b then b else a);
      if KeyId(e.table, NewNumber(p, a)) == KeyId(f.table, NewNumber(p, b)) {
        KeyIdInjective(e.table, NewNumber(p, a), NewNumber(p, b));
      }
    }
    if e.op == Insert && f.op == Insert && e.table != f.table {
      OurEntry(p, a);
      OurEntry(p, b);
    }
  }

  /** With free keys the output names each row once and applies strictly to theirs. */
  lemma OutputApplies(p: Plan, out: seq<Entry>, src: seq<nat>)
    requires p.Valid() && Rewritable(p) && KeysFree(p) && IsOutput(p, out, src)
    ensures Fits(p.d.s, out) && DistinctIds(out) && ApplyAll(p.d.theirs, out).Some?
  {
    OutputFits(p, out, src);
    OutputDistinct(p, out, src);
    OutputSteps(p, out, src);
    StepsApply(p.d.s, p.d.theirs, out);
  }

  lemma OutputDistinct(p: Plan, out: seq<Entry>, src: seq<nat>)
    requires p.Valid() && Rewritable(p) && KeysFree(p) && IsOutput(p, out, src) && Shaped(out)
    ensures DistinctIds(out)
  {
    forall j, k | 0 <= j < k < |out| ensures IdOf(out[j]) != IdOf(out[k]) {
      OutputApart(p, out, src, j, k);
    }
  }

  lemma OutputSteps(p: Plan, out: seq<Entry>, src: seq<nat>)
    requires p.Valid() && Rewritable(p) && KeysFree(p) && IsOutput(p, out, src) && Shaped(out)
    ensures forall j | 0 <= j < |out| :: RowStep(out[j], Get(p.d.theirs, IdOf(out[j]))).Some?
  {
    forall j | 0 <= j < |out| ensures RowStep(out[j], Get(p.d.theirs, IdOf(out[j]))).Some? {
      OutputStep(p, out, src, j);
    }
  }

  // ----- The three-way merge -----

  /** Our inserted rows and where they go. */
  ghost function Moves(p: Plan): map<RowId, RowId>
    requires p.Keyed()
  {
    map id | id in p.d.ours.Keys - p.d.base.Keys :: p.NewId(id)
  }

  /**
   `m` is the three-way merge: our inserted rows stand, re-keyed, where `moves`
   says, which is nowhere theirs has a row and never in one place twice; every
   other row is merged cell by cell.
   */
  ghost predicate IsMerge(d: Sides, moves: map<RowId, RowId>, m: Db) {
    && moves.Keys == d.ours.Keys - d.base.Keys
    && (forall a, b | a in moves && b in moves && a != b :: moves[a] != moves[b])
    && (forall a | a in moves :: moves[a] !in d.theirs && Moved(d, a, moves[a], m))
    && (forall id: RowId | id !in moves.Values :: RowIsMerged(d, id, m))
  }

  /** Our row `a` is in `m` under identity `b`, with only its key column changed. */
  ghost predicate Moved(d: Sides, a: RowId, b: RowId, m: Db) {
    && a in d.ours && a.table in d.s && |d.ours[a]| == d.s[a.table].ColumnCount()
    && b in m && exists k :: b == KeyId(d.s[a.table], k) && WithKey(d.s[a.table].primaryKeys, d.ours[a], k, m[b])
  }

  lemma RekeyedIsMoved(d: Sides, a: RowId, k: int, m: Db)
    requires a in d.ours && a.table in d.s && |d.ours[a]| == d.s[a.table].ColumnCount()
    requires Get(m, KeyId(d.s[a.table], k)) == Some(Rekeyed(d.s[a.table].primaryKeys, d.ours[a], k))
    ensures Moved(d, a, KeyId(d.s[a.table], k), m)
  {
    assert WithKey(d.s[a.table].primaryKeys, d.ours[a], k, m[KeyId(d.s[a.table], k)]);
  }

  ghost predicate RowIsMerged(d: Sides, id: RowId, m: Db) {
    var b, t, o := Get(d.base, id), Get(d.theirs, id), Get(d.ours, id);
    SameWidth(b, t, o) && Get(m, id) == MergeRow(b, t, o)
  }

  /** A row ours did not change merges to theirs. */
  lemma UnchangedMergesToTheirs(d: Sides, id: RowId)
    requires d.Valid() && Get(d.base, id) == Get(d.ours, id)
    ensures MergesToTheirs(d, id)
  {
    var b, t := Get(d.base, id), Get(d.theirs, id);
    if b.Some? && t.Some? {
      assert MergeCells(b.value, t.value, b.value) == t.value;
    }
  }

  /** Our inserted row is one of our INSERT entries. */
  lemma InsertOf(p: Plan, a: RowId) returns (i: int)
    requires p.Keyed() && a in p.d.ours && a !in p.d.base
    ensures 0 <= i < |p.d.toOurs| && p.d.toOurs[i].WellShaped() && p.d.toOurs[i].op == Insert && IdOf(p.d.toOurs[i]) == a
    ensures p.d.toOurs[i].newValues == p.d.ours[a]
  {
    assert a in Changed(p.d.base, p.d.ours) && Touches(p.d.toOurs, a);
    i :| 0 <= i < |p.d.toOurs| && IdOf(p.d.toOurs[i]) == a;
    OurEntry(p, i);
  }

  lemma InsertLands(p: Plan, out: seq<Entry>, src: seq<nat>, m: Db, i: int)
    requires p.Valid() && Rewritable(p) && KeysFree(p) && IsOutput(p, out, src) && Shaped(out) && Pointwise(p.d.theirs, out, m)
    requires 0 <= i < |p.d.toOurs| && p.d.toOurs[i].op == Insert
    ensures p.d.toOurs[i].WellShaped() && HasKey(p.d.toOurs[i].table)
    ensures Get(m, TargetId(p, i)) == Some(Rekeyed(p.d.toOurs[i].table.primaryKeys, p.d.toOurs[i].newValues, NewNumber(p, i)))
  {
    InsertIsMoved(p, i);
    InsertGoesToFreeKey(p, i);
    SurvivorListed(p, out, src, i);
    var j :| 0 <= j < |out| && out[j] == Rewritten(p, i).value;
    assert IdOf(out[j]) == TargetId(p, i);
  }

  lemma SurvivorListed(p: Plan, out: seq<Entry>, src: seq<nat>, i: int)
    requires p.Keyed() && Rewritable(p) && IsOutput(p, out, src) && 0 <= i < |p.d.toOurs|
    ensures Rewritten(p, i).Some? ==> exists j :: 0 <= j < |out| && src[j] == i && out[j] == Rewritten(p, i).value
  {
    if Rewritten(p, i).Some? {
      assert i in src;
      var j :| 0 <= j < |src| && src[j] == i;
      assert out[j] == Rewritten(p, i).value;
    }
  }

  lemma OutputLands(p: Plan, out: seq<Entry>, src: seq<nat>, m: Db, j: int)
    requires p.Valid() && Rewritable(p) && KeysFree(p) && IsOutput(p, out, src) && Shaped(out) && Pointwise(p.d.theirs, out, m)
    requires 0 <= j < |out|
    ensures if out[j].op == Insert then IdOf(out[j]) in Moves(p).Values else RowIsMerged(p.d, IdOf(out[j]), m)
  {
    var i := src[j];
    OutputEntry(p, out, src, j);
    if p.d.toOurs[i].op == Insert {
      InsertIsAMove(p, i);
    } else {
      ChangeIsMerged(p, i);
    }
  }

  lemma InsertIsAMove(p: Plan, i: int)
    requires p.Keyed() && 0 <= i < |p.d.toOurs| && p.d.toOurs[i].op == Insert
    ensures p.d.toOurs[i].WellShaped() && HasKey(p.d.toOurs[i].table) && TargetId(p, i) in Moves(p).Values
  {
    OurEntry(p, i);
    NewIdIsNewNumber(p, i);
    assert IdOf(p.d.toOurs[i]) in Moves(p) && Moves(p)[IdOf(p.d.toOurs[i])] == TargetId(p, i);
  }

  lemma OthersMerge(p: Plan, out: seq<Entry>, src: seq<nat>, m: Db, id: RowId)
    requires p.Valid() && Rewritable(p) && KeysFree(p) && IsOutput(p, out, src) && Shaped(out) && Pointwise(p.d.theirs, out, m)
    requires id !in Moves(p).Values
    ensures RowIsMerged(p.d, id, m)
  {
    if j :| 0 <= j < |out| && IdOf(out[j]) == id {
      OutputLands(p, out, src, m, j);
    } else {
      assert !Touches(out, id);
      if Get(p.d.base, id) == Get(p.d.ours, id) {
        UnchangedMergesToTheirs(p.d, id);
      } else {
        UntouchedByOutput(p, out, src, id);
      }
    }
  }

  /** A row ours changed but the output does not name merges to theirs. */
  lemma UntouchedByOutput(p: Plan, out: seq<Entry>, src: seq<nat>, id: RowId)
    requires p.Valid() && Rewritable(p) && IsOutput(p, out, src) && Shaped(out) && !Touches(out, id)
    requires Get(p.d.base, id) != Get(p.d.ours, id)
    ensures MergesToTheirs(p.d, id)
  {
    assert id in Changed(p.d.base, p.d.ours) && Touches(p.d.toOurs, id);
    var i :| 0 <= i < |p.d.toOurs| && IdOf(p.d.toOurs[i]) == id;
    if p.d.toOurs[i].op == Insert {
      InsertedRow(p, i);
    } else {
      UnlistedChange(p, out, src, i);
    }
  }

  lemma InsertedRow(p: Plan, i: int)
    requires p.Keyed() && 0 <= i < |p.d.toOurs| && p.d.toOurs[i].op == Insert && p.d.toOurs[i].WellShaped()
    ensures IdOf(p.d.toOurs[i]) !in p.d.base && MergesToTheirs(p.d, IdOf(p.d.toOurs[i]))
  {
    OurEntry(p, i);
  }

  ghost predicate MergesToTheirs(d: Sides, id: RowId) {
    var b, t, o := Get(d.base, id), Get(d.theirs, id), Get(d.ours, id);
    SameWidth(b, t, o) && MergeRow(b, t, o) == t
  }

  lemma UnlistedChange(p: Plan, out: seq<Entry>, src: seq<nat>, i: int)
    requires p.Valid() && Rewritable(p) && IsOutput(p, out, src) && Shaped(out)
    requires 0 <= i < |p.d.toOurs| && p.d.toOurs[i].op != Insert && p.d.toOurs[i].WellShaped() && !Touches(out, IdOf(p.d.toOurs[i]))
    ensures MergesToTheirs(p.d, IdOf(p.d.toOurs[i]))
  {
    ChangeIsMerged(p, i);
    SurvivorListed(p, out, src, i);
  }

  /** Applied to theirs, the rebased changeset gives the three-way merge. */
  lemma OutputMerges(p: Plan, out: seq<Entry>, src: seq<nat>)
    requires p.Valid() && KeysFree(p) && Rewritable(p) && IsOutput(p, out, src)
    ensures Fits(p.d.s, out) && DistinctIds(out) && ApplyAll(p.d.theirs, out).Some?
    ensures IsMerge(p.d, Moves(p), ApplyAll(p.d.theirs, out).value)
  {
    OutputApplies(p, out, src);
    var m := ApplyAll(p.d.theirs, out).value;
    ApplyAllIffPointwise(p.d.s, p.d.theirs, out, m);
    forall a | a in Moves(p) ensures Moves(p)[a] !in p.d.theirs && Moved(p.d, a, Moves(p)[a], m) {
      var i := InsertOf(p, a);
      NewIdIsNewNumber(p, i);
      InsertLands(p, out, src, m, i);
      InsertGoesToFreeKey(p, i);
      OurEntry(p, i);
    }
    forall a, b | a in Moves(p) && b in Moves(p) && a != b ensures Moves(p)[a] != Moves(p)[b] {
      MovesApart(p, a, b);
    }
    forall id: RowId | id !in Moves(p).Values ensures RowIsMerged(p.d, id, m) {
      OthersMerge(p, out, src, m, id);
    }
  }

  lemma MovesApart(p: Plan, a: RowId, b: RowId)
    requires p.Valid() && KeysFree(p) && a in Moves(p) && b in Moves(p) && a != b
    ensures Moves(p)[a] != Moves(p)[b]
  {
    var i := InsertOf(p, a);
    var j := InsertOf(p, b);
    OurEntry(p, i);
    OurEntry(p, j);
    NewIdIsNewNumber(p, i);
    NewIdIsNewNumber(p, j);
    if p.d.toOurs[i].table == p.d.toOurs[j].table {
      SameTableApart(p, i, j);
    }
  }

  lemma SameTableApart(p: Plan, i: int, j: int)
    requires p.Valid() && KeysFree(p) && 0 <= i < |p.d.toOurs| && 0 <= j < |p.d.toOurs| && i != j
    requires p.d.toOurs[i].op == Insert && p.d.toOurs[j].op == Insert && p.d.toOurs[i].table == p.d.toOurs[j].table
    ensures p.d.toOurs[i].WellShaped() && HasKey(p.d.toOurs[i].table) && p.d.toOurs[j].WellShaped()
    ensures KeyId(p.d.toOurs[i].table, NewNumber(p, i)) != KeyId(p.d.toOurs[j].table, NewNumber(p, j))
  {
    InsertsGoApart(p, if i < j then i else j, if i < j then j else i);
    if KeyId(p.d.toOurs[i].table, NewNumber(p, i)) == KeyId(p.d.toOurs[j].table, NewNumber(p, j)) {
      KeyIdInjective(p.d.toOurs[i].table, NewNumber(p, i), NewNumber(p, j));
    }
  }
}
