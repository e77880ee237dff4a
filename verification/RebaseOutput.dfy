/** The handlers, prepareNewChangeset and Rebase itself (driver/rebase.go). */
module RebaseOutput {
  import opened Values
  import opened Rows
  import opened KeyMapping
  import opened RebaseRules
  import opened RebaseKeys
  import opened RebaseDriver

  /** The new key of an entry; looked up only when the mapping has one. */
  method LookUp(mapping: RebaseMapping, t: Name, pk: int) returns (r: PassResult, newPk: int)
    ensures r == Done && newPk == NewKey(IdsOf(mapping.mapIds, t), pk)
  {
    newPk := pk;
    if mapping.HasOldPkey(t, pk) {
      var found := mapping.GetNewPkey(t, pk);
      if found.None? {
        return Failed(UnknownKey), 0;
      }
      newPk := found.value;
    }
    r := Done;
  }

  method HandleInsert(e: Entry, mapping: RebaseMapping) returns (r: PassResult, outEntry: Entry)
    requires e.op == Insert && e.WellShaped() && HasKey(e.table)
    ensures r == Done && outEntry == RebasedInsert(e, IdsOf(mapping.mapIds, e.table.name))
  {
    var newPk;
    r, newPk := LookUp(mapping, e.table.name, Pk(e));
    var newValues := [];
    for i := 0 to e.table.ColumnCount()
      invariant |newValues| == i
      invariant forall j | 0 <= j < i :: newValues[j] == Rekeyed(e.table.primaryKeys, e.newValues, newPk)[j]
    {
      newValues := newValues + [if e.table.primaryKeys[i] then Int(newPk) else e.newValues[i]];
    }
    assert newValues == Rekeyed(e.table.primaryKeys, e.newValues, newPk);
    outEntry := Entry(Insert, [], newValues, e.table);
  }

  method HandleDelete(e: Entry, mapping: RebaseMapping, ti: TableInfo) returns (r: PassResult, write: bool, outEntry: Entry)
    requires e.op == Delete && e.WellShaped() && HasKey(e.table) && InfoFits(ti, e.table)
    ensures r == Done
    ensures RebasedDelete(e, IdsOf(mapping.mapIds, e.table.name), ti) == if write then Some(outEntry) else None
  {
    var n, pk := e.table.ColumnCount(), Pk(e);
    var newPk;
    r, newPk := LookUp(mapping, e.table.name, pk);
    if mapping.HasOldPkey(e.table.name, pk) && newPk == INVALID_FID {
      return Done, false, e;
    }
    var patched := if pk !in ti.updated || newPk != pk then Blank(n) else ti.updated[pk];
    var oldValues := [];
    for i := 0 to n
      invariant |oldValues| == i
      invariant forall j | 0 <= j < i :: oldValues[j] == DeletedOld(e, newPk, patched)[j]
    {
      oldValues := oldValues + [if e.table.primaryKeys[i] then Int(newPk)
                                else if !patched[i].Undefined? then patched[i] else e.oldValues[i]];
    }
    assert oldValues == DeletedOld(e, newPk, patched);
    write, outEntry := true, Entry(Delete, oldValues, [], e.table);
  }

  method AddConflictItem(items: seq<ConflictItem>, t: Name, col: nat, base: Value, theirs: Value, ours: Value)
    returns (r: seq<ConflictItem>)
    ensures r == if Exempt(t, col) then items else items + [ConflictItem(col, base, theirs, ours)]
  {
    if t == Ascii("gpkg_contents") && col == 4 {
      return items;
    }
    r := items + [ConflictItem(col, base, theirs, ours)];
  }

  function Append(conflicts: seq<ConflictFeature>, c: Option<ConflictFeature>): seq<ConflictFeature> {
    match c
    case None => conflicts
    case Some(cf) => conflicts + [cf]
  }

  /** Our update of a row theirs deleted: dropped, every value of ours reported. */
  method ReportDeleted(e: Entry, conflicts0: seq<ConflictFeature>) returns (conflicts: seq<ConflictFeature>)
    requires e.op == Update && e.WellShaped() && HasKey(e.table)
    ensures conflicts == Append(conflicts0, ReportedConflict(e, Items(e, Blank(e.table.ColumnCount()), true, e.table.ColumnCount())))
  {
    var n := e.table.ColumnCount();
    var items: seq<ConflictItem> := [];
    for i := 0 to n
      invariant items == Items(e, Blank(n), true, i)
    {
      if !e.newValues[i].Undefined? {
        items := AddConflictItem(items, e.table.name, i, e.oldValues[i], Undefined, e.newValues[i]);
      }
    }
    conflicts := conflicts0;
    if items != [] {
      conflicts := conflicts + [ConflictFeature(Pk(e), e.table.name, items)];
    }
  }

  method HandleUpdate(e: Entry, mapping: RebaseMapping, ti: TableInfo, conflicts0: seq<ConflictFeature>)
    returns (r: PassResult, write: bool, outEntry: Entry, conflicts: seq<ConflictFeature>)
    requires e.op == Update && e.WellShaped() && HasKey(e.table) && InfoFits(ti, e.table)
    ensures r == Done
    ensures var out := RebasedUpdate(e, IdsOf(mapping.mapIds, e.table.name), ti);
            && out.entry == (if write then Some(outEntry) else None)
            && conflicts == Append(conflicts0, out.conflict)
  {
    var n, pk := e.table.ColumnCount(), Pk(e);
    var newPk;
    r, newPk := LookUp(mapping, e.table.name, pk);
    if mapping.HasOldPkey(e.table.name, pk) && newPk == INVALID_FID {
      conflicts := ReportDeleted(e, conflicts0);
      return Done, false, e, conflicts;
    }
    var renumbered := newPk != pk;
    var patched := if pk !in ti.updated || renumbered then Blank(n) else ti.updated[pk];
    var items, oldValues, newValues, hasChanges := PatchColumns(e, patched);
    if renumbered {
      oldValues := RekeyOld(e.table.primaryKeys, oldValues, newPk);
    }
    assert oldValues == UpdatedOld(e, patched, IdsOf(mapping.mapIds, e.table.name));
    conflicts := conflicts0;
    if items != [] {
      conflicts := conflicts + [ConflictFeature(pk, e.table.name, items)];
    }
    write, outEntry := hasChanges, Entry(Update, oldValues, newValues, e.table);
  }

  /** The old values of an UPDATE where theirs left the column alone. */
  function KeptOld(e: Entry, patched: Row): (r: Row)
    requires e.op == Update && e.WellShaped() && |patched| == e.table.ColumnCount()
    ensures |r| == |patched|
  {
    seq(|patched|, i requires 0 <= i < |patched| => if patched[i].Undefined? then e.oldValues[i] else Undefined)
  }

  /** The column loop: what is left of our UPDATE, and what conflicts. */
  method PatchColumns(e: Entry, patched: Row)
    returns (items: seq<ConflictItem>, oldValues: Row, newValues: Row, hasChanges: bool)
    requires e.op == Update && e.WellShaped() && |patched| == e.table.ColumnCount()
    ensures items == Items(e, patched, false, |patched|)
    ensures oldValues == KeptOld(e, patched) && newValues == UpdatedNew(e, patched)
    ensures hasChanges <==> AnyDefined(newValues)
  {
    items, oldValues, newValues, hasChanges := [], [], [], false;
    for i := 0 to |patched|
      invariant |oldValues| == |newValues| == i
      invariant items == Items(e, patched, false, i)
      invariant forall j | 0 <= j < i :: newValues[j] == UpdatedNew(e, patched)[j]
      invariant forall j | 0 <= j < i :: oldValues[j] == KeptOld(e, patched)[j]
      invariant hasChanges <==> AnyDefined(newValues)
    {
      if !patched[i].Undefined? {
        if !e.newValues[i].Undefined? && patched[i] != e.newValues[i] {
          items := AddConflictItem(items, e.table.name, i, e.oldValues[i], patched[i], e.newValues[i]);
        }
        AnyDefinedSnoc(newValues, Undefined);
        oldValues, newValues := oldValues + [Undefined], newValues + [Undefined];
      } else {
        AnyDefinedSnoc(newValues, e.newValues[i]);
        oldValues, newValues := oldValues + [e.oldValues[i]], newValues + [e.newValues[i]];
        if !e.newValues[i].Undefined? {
          hasChanges := true;
        }
      }
    }
    assert oldValues == KeptOld(e, patched) && newValues == UpdatedNew(e, patched);
  }

  method RekeyOld(pks: seq<bool>, vals: Row, newPk: int) returns (r: Row)
    requires |pks| == |vals|
    ensures r == Rekeyed(pks, vals, newPk)
  {
    r := vals;
    for i := 0 to |pks|
      invariant |r| == |vals|
      invariant forall j | 0 <= j < i :: r[j] == Rekeyed(pks, vals, newPk)[j]
      invariant forall j | i <= j < |r| :: r[j] == vals[j]
    {
      if pks[i] {
        r := r[i := Int(newPk)];
      }
    }
  }

  lemma AnyDefinedSnoc(vals: Row, v: Value)
    ensures AnyDefined(vals + [v]) <==> AnyDefined(vals) || !v.Undefined?
  {
    if AnyDefined(vals) {
      var i :| 0 <= i < |vals| && !vals[i].Undefined?;
      assert !(vals + [v])[i].Undefined?;
    }
    if !v.Undefined? {
      assert !(vals + [v])[|vals|].Undefined?;
    }
  }

  /** One entry: through unchanged when theirs did not touch its table, otherwise by its handler. */
  method Handle(e: Entry, mapping: RebaseMapping, info: Info, conflicts0: seq<ConflictFeature>)
    returns (r: PassResult, write: bool, outEntry: Entry, conflicts: seq<ConflictFeature>)
    requires RebasableEntry(e, info)
    ensures r == Done
    ensures var out := RebaseOne(e, info, mapping.mapIds);
            && out.entry == (if write then Some(outEntry) else None)
            && conflicts == Append(conflicts0, out.conflict)
  {
    r, write, outEntry, conflicts := Done, true, e, conflicts0;
    if e.table.name in info {
      var ti := info[e.table.name];
      match e.op {
        case Update => r, write, outEntry, conflicts := HandleUpdate(e, mapping, ti, conflicts0);
        case Insert => r, outEntry := HandleInsert(e, mapping);
        case Delete => r, write, outEntry := HandleDelete(e, mapping, ti);
      }
    }
  }

  // ----- Grouping by table -----

  type Changes = map<Name, seq<Entry>>
  type Positions = map<Name, seq<nat>>

  ghost predicate Survives(es: seq<Entry>, info: Info, maps: KeyMaps, i: int)
    requires Rebasable(es, info) && 0 <= i < |es|
  {
    RebaseOne(es[i], info, maps).entry.Some?
  }

  /** The changes of table t hold its surviving entries among the first n, in order. */
  ghost predicate Grouped(es: seq<Entry>, info: Info, maps: KeyMaps, n: nat, t: Name, ch: seq<Entry>, src: seq<nat>)
    requires Rebasable(es, info) && n <= |es|
  {
    && |src| == |ch|
    && (forall j | 0 <= j < |src| ::
          src[j] < n && es[src[j]].table.name == t && RebaseOne(es[src[j]], info, maps).entry == Some(ch[j]))
    && (forall j, k | 0 <= j < k < |src| :: src[j] < src[k])
    && (forall i | 0 <= i < n && es[i].table.name == t && Survives(es, info, maps, i) :: i in src)
  }

  function ChangesOf(changes: Changes, t: Name): seq<Entry> {
    if t in changes then changes[t] else []
  }

  function PositionsOf(positions: Positions, t: Name): seq<nat> {
    if t in positions then positions[t] else []
  }

  ghost predicate AllGrouped(es: seq<Entry>, info: Info, maps: KeyMaps, n: nat, order: seq<Name>, changes: Changes, positions: Positions)
    requires Rebasable(es, info) && n <= |es|
  {
    && (forall i, j | 0 <= i < j < |order| :: order[i] != order[j])
    && (forall i | 0 <= i < n :: es[i].table.name in order)
    && (forall t :: Grouped(es, info, maps, n, t, ChangesOf(changes, t), PositionsOf(positions, t)))
  }

  lemma GroupedSnoc(es: seq<Entry>, info: Info, maps: KeyMaps, n: nat, t: Name, ch: seq<Entry>, src: seq<nat>)
    requires Rebasable(es, info) && n < |es| && Grouped(es, info, maps, n, t, ch, src)
    ensures var out := RebaseOne(es[n], info, maps).entry;
            if es[n].table.name == t && out.Some? then Grouped(es, info, maps, n + 1, t, ch + [out.value], src + [n])
            else Grouped(es, info, maps, n + 1, t, ch, src)
  {
    var out := RebaseOne(es[n], info, maps).entry;
    if es[n].table.name == t && out.Some? {
      var src' := src + [n];
      forall i | 0 <= i < n + 1 && es[i].table.name == t && Survives(es, info, maps, i) ensures i in src' {
        if i == n {
          assert src'[|src|] == n;
        }
      }
    }
  }

  /** The groups of the first tables, written one after the other. */
  ghost predicate PartWritten(es: seq<Entry>, info: Info, maps: KeyMaps, done: seq<Name>, out: seq<Entry>, src: seq<nat>)
    requires Rebasable(es, info)
  {
    && Rewrites(es, info, maps, out, src)
    && Ordered(es, src)
    && (forall j | 0 <= j < |src| :: es[src[j]].table.name in done)
    && Covered(es, info, maps, done, src)
  }

  /** Each entry of `out` is the rewritten form of the entry at its position. */
  ghost predicate Rewrites(es: seq<Entry>, info: Info, maps: KeyMaps, out: seq<Entry>, src: seq<nat>)
    requires Rebasable(es, info)
  {
    && |src| == |out|
    && forall j | 0 <= j < |src| :: src[j] < |es| && RebaseOne(es[src[j]], info, maps).entry == Some(out[j])
  }

  /** No position twice, and those of one table in order. */
  ghost predicate Ordered(es: seq<Entry>, src: seq<nat>)
    requires forall j | 0 <= j < |src| :: src[j] < |es|
  {
    && (forall j, k | 0 <= j < k < |src| :: src[j] != src[k])
    && (forall j, k | 0 <= j < k < |src| && es[src[j]].table.name == es[src[k]].table.name :: src[j] < src[k])
  }

  /** Every surviving entry of the tables written. */
  ghost predicate Covered(es: seq<Entry>, info: Info, maps: KeyMaps, done: seq<Name>, src: seq<nat>)
    requires Rebasable(es, info)
  {
    forall i | 0 <= i < |es| && es[i].table.name in done && Survives(es, info, maps, i) :: i in src
  }

  lemma WriteGroup(es: seq<Entry>, info: Info, maps: KeyMaps, done: seq<Name>, out: seq<Entry>, src: seq<nat>, t: Name, ch: seq<Entry>, pos: seq<nat>)
    requires Rebasable(es, info) && PartWritten(es, info, maps, done, out, src) && t !in done
    requires Grouped(es, info, maps, |es|, t, ch, pos)
    ensures PartWritten(es, info, maps, done + [t], out + ch, src + pos)
  {
    GroupRewrites(es, info, maps, out, src, ch, pos);
    GroupOrdered(es, src, pos);
    GroupCovers(es, info, maps, done, src, t, pos);
    forall j | 0 <= j < |src + pos| ensures es[(src + pos)[j]].table.name in done + [t] {
      assert (src + pos)[j] == if j < |src| then src[j] else pos[j - |src|];
      assert (done + [t])[|done|] == t && forall n | n in done :: n in done + [t];
    }
  }

  lemma GroupRewrites(es: seq<Entry>, info: Info, maps: KeyMaps, out: seq<Entry>, src: seq<nat>, ch: seq<Entry>, pos: seq<nat>)
    requires Rebasable(es, info) && Rewrites(es, info, maps, out, src) && Rewrites(es, info, maps, ch, pos)
    ensures Rewrites(es, info, maps, out + ch, src + pos)
  {
    var all := src + pos;
    assert forall j | 0 <= j < |all| :: all[j] == if j < |src| then src[j] else pos[j - |src|];
    assert forall j | 0 <= j < |all| :: (out + ch)[j] == if j < |src| then out[j] else ch[j - |src|];
  }

  /** Positions of two parts, apart from one another by table. */
  lemma GroupOrdered(es: seq<Entry>, src: seq<nat>, pos: seq<nat>)
    requires (forall j | 0 <= j < |src| :: src[j] < |es|) && (forall j | 0 <= j < |pos| :: pos[j] < |es|)
    requires Ordered(es, src) && forall j, k | 0 <= j < k < |pos| :: pos[j] < pos[k]
    requires forall j, k | 0 <= j < |src| && 0 <= k < |pos| :: es[src[j]].table.name != es[pos[k]].table.name
    ensures (forall j | 0 <= j < |src + pos| :: (src + pos)[j] < |es|) && Ordered(es, src + pos)
  {
    var all := src + pos;
    assert forall j | 0 <= j < |all| :: all[j] == if j < |src| then src[j] else pos[j - |src|];
  }

  lemma GroupCovers(es: seq<Entry>, info: Info, maps: KeyMaps, done: seq<Name>, src: seq<nat>, t: Name, pos: seq<nat>)
    requires Rebasable(es, info) && Covered(es, info, maps, done, src)
    requires forall i | 0 <= i < |es| && es[i].table.name == t && Survives(es, info, maps, i) :: i in pos
    ensures Covered(es, info, maps, done + [t], src + pos)
  {
    forall i | 0 <= i < |es| && es[i].table.name in done + [t] && Survives(es, info, maps, i) ensures i in src + pos {
      assert if es[i].table.name in done then i in src else i in pos;
    }
  }

  /** An entry of table t stands before any of table u. */
  ghost predicate AppearsBefore(es: seq<Entry>, t: Name, u: Name) {
    exists a :: 0 <= a < |es| && es[a].table.name == t && forall b | 0 <= b <= a :: es[b].table.name != u
  }

  /** The tables of `out` come in the order in which `es` first names them. */
  ghost predicate TablesInOrder(es: seq<Entry>, out: seq<Entry>) {
    forall j, k | 0 <= j < k < |out| && out[j].table.name != out[k].table.name ::
      AppearsBefore(es, out[j].table.name, out[k].table.name)
  }

  ghost predicate NamedWithin(es: seq<Entry>, n: nat, t: Name)
    requires n <= |es|
  {
    exists a :: 0 <= a < n && es[a].table.name == t
  }

  /** The tables the first n entries name, in that order. */
  ghost predicate FirstNames(es: seq<Entry>, n: nat, order: seq<Name>)
    requires n <= |es|
  {
    && (forall i | 0 <= i < |order| :: NamedWithin(es, n, order[i]))
    && (forall i | 0 <= i < n :: es[i].table.name in order)
    && (forall i, j | 0 <= i < j < |order| :: AppearsBefore(es, order[i], order[j]))
  }

  lemma FirstNamesSnoc(es: seq<Entry>, n: nat, order: seq<Name>)
    requires n < |es| && FirstNames(es, n, order)
    ensures var t := es[n].table.name; FirstNames(es, n + 1, if t in order then order else order + [t])
  {
    if es[n].table.name in order {
      NamesStay(es, n, order);
    } else {
      NewName(es, n, order);
      NamesStay(es, n, order + [es[n].table.name]);
    }
  }

  /** Names within one more entry. */
  lemma NamesStay(es: seq<Entry>, n: nat, order: seq<Name>)
    requires n < |es| && es[n].table.name in order
    requires forall i | 0 <= i < |order| :: NamedWithin(es, n, order[i]) || order[i] == es[n].table.name
    requires forall i | 0 <= i < n :: es[i].table.name in order
    ensures forall i | 0 <= i < |order| :: NamedWithin(es, n + 1, order[i])
    ensures forall i | 0 <= i < n + 1 :: es[i].table.name in order
  {
  }

  lemma NewName(es: seq<Entry>, n: nat, order: seq<Name>)
    requires n < |es| && FirstNames(es, n, order) && es[n].table.name !in order
    ensures var order' := order + [es[n].table.name];
            && es[n].table.name in order'
            && (forall i | 0 <= i < |order'| :: NamedWithin(es, n, order'[i]) || order'[i] == es[n].table.name)
            && (forall i | 0 <= i < n :: es[i].table.name in order')
            && (forall i, j | 0 <= i < j < |order'| :: AppearsBefore(es, order'[i], order'[j]))
  {
    assert (order + [es[n].table.name])[|order|] == es[n].table.name;
    forall i | 0 <= i < |order| ensures AppearsBefore(es, order[i], es[n].table.name) {
      assert NamedWithin(es, n, order[i]);
      var a :| 0 <= a < n && es[a].table.name == order[i];
      assert forall b | 0 <= b <= a :: es[b].table.name in order;
    }
  }

  /** One more group. */
  lemma GroupInOrder(es: seq<Entry>, order: seq<Name>, k: nat, out: seq<Entry>, ch: seq<Entry>)
    requires FirstNames(es, |es|, order) && k < |order| && TablesInOrder(es, out)
    requires forall j | 0 <= j < |out| :: out[j].table.name in order[..k]
    requires forall j | 0 <= j < |ch| :: ch[j].table.name == order[k]
    ensures TablesInOrder(es, out + ch)
  {
    var all := out + ch;
    forall i, j | 0 <= i < j < |all| && all[i].table.name != all[j].table.name
      ensures AppearsBefore(es, all[i].table.name, all[j].table.name)
    {
      if j >= |out| {
        assert i < |out| && all[i] == out[i];
        var x :| 0 <= x < k && order[x] == out[i].table.name;
        assert AppearsBefore(es, order[x], order[k]);
      } else {
        assert all[i] == out[i] && all[j] == out[j];
      }
    }
  }

  /** One more entry, filed under its table if it survives. */
  lemma AllGroupedSnoc(es: seq<Entry>, info: Info, maps: KeyMaps, n: nat, order: seq<Name>, changes: Changes, positions: Positions)
    requires Rebasable(es, info) && n < |es| && AllGrouped(es, info, maps, n, order, changes, positions)
    ensures var t, out := es[n].table.name, RebaseOne(es[n], info, maps).entry;
            AllGrouped(es, info, maps, n + 1, if t in order then order else order + [t],
                       if out.Some? then changes[t := ChangesOf(changes, t) + [out.value]] else changes,
                       if out.Some? then positions[t := PositionsOf(positions, t) + [n]] else positions)
  {
    var t, out := es[n].table.name, RebaseOne(es[n], info, maps).entry;
    var changes' := if out.Some? then changes[t := ChangesOf(changes, t) + [out.value]] else changes;
    var positions' := if out.Some? then positions[t := PositionsOf(positions, t) + [n]] else positions;
    forall u ensures Grouped(es, info, maps, n + 1, u, ChangesOf(changes', u), PositionsOf(positions', u)) {
      assert Grouped(es, info, maps, n, u, ChangesOf(changes, u), PositionsOf(positions, u));
      GroupedSnoc(es, info, maps, n, u, ChangesOf(changes, u), PositionsOf(positions, u));
    }
    var order' := if t in order then order else order + [t];
    forall i | 0 <= i < n + 1 ensures es[i].table.name in order' {
      if i == n && t !in order {
        assert order'[|order|] == t;
      }
    }
  }

  /** The first n entries are filed, under the tables they name. */
  ghost predicate Filed(es: seq<Entry>, info: Info, maps: KeyMaps, n: nat, order: seq<Name>, changes: Changes, positions: Positions)
    requires Rebasable(es, info) && n <= |es|
  {
    AllGrouped(es, info, maps, n, order, changes, positions) && FirstNames(es, n, order)
  }

  lemma FiledSnoc(es: seq<Entry>, info: Info, maps: KeyMaps, n: nat, order: seq<Name>, changes: Changes, positions: Positions)
    requires Rebasable(es, info) && n < |es| && Filed(es, info, maps, n, order, changes, positions)
    ensures var t, out := es[n].table.name, RebaseOne(es[n], info, maps).entry;
            Filed(es, info, maps, n + 1, if t in order then order else order + [t],
                  if out.Some? then changes[t := ChangesOf(changes, t) + [out.value]] else changes,
                  if out.Some? then positions[t := PositionsOf(positions, t) + [n]] else positions)
  {
    AllGroupedSnoc(es, info, maps, n, order, changes, positions);
    FirstNamesSnoc(es, n, order);
  }

  lemma ConflictsSnoc(es: seq<Entry>, info: Info, maps: KeyMaps, n: nat)
    requires Rebasable(es, info) && n < |es|
    ensures Rebasable(es[..n], info) && Rebasable(es[..n + 1], info)
    ensures ConflictsOf(es[..n + 1], info, maps) == Append(ConflictsOf(es[..n], info, maps), RebaseOne(es[n], info, maps).conflict)
  {
    assert es[..n + 1][..n] == es[..n];
  }

  /** One entry of pass 3. */
  method FileEntry(entries: seq<Entry>, n: nat, mapping: RebaseMapping, info: Info,
                   order0: seq<Name>, changes0: Changes, conflicts0: seq<ConflictFeature>, ghost positions0: Positions)
    returns (r: PassResult, order: seq<Name>, changes: Changes, conflicts: seq<ConflictFeature>, ghost positions: Positions)
    requires Rebasable(entries, info) && n < |entries|
    requires Filed(entries, info, mapping.mapIds, n, order0, changes0, positions0)
    requires conflicts0 == ConflictsOf(entries[..n], info, mapping.mapIds)
    ensures r == Done
    ensures Filed(entries, info, mapping.mapIds, n + 1, order, changes, positions)
    ensures conflicts == ConflictsOf(entries[..n + 1], info, mapping.mapIds)
  {
    var e := entries[n];
    var t := e.table.name;
    order, changes, positions := order0, changes0, positions0;
    FiledSnoc(entries, info, mapping.mapIds, n, order, changes, positions);
    if t !in order {
      order := order + [t];
    }
    var write, outEntry;
    r, write, outEntry, conflicts := Handle(e, mapping, info, conflicts0);
    ConflictsSnoc(entries, info, mapping.mapIds, n);
    if write {
      positions := positions[t := PositionsOf(positions, t) + [n]];
      changes := changes[t := ChangesOf(changes, t) + [outEntry]];
    }
  }

  /** Pass 3: rewrite, group by table in order of first appearance, write the groups. */
  method PrepareNewChangeset(entries: seq<Entry>, mapping: RebaseMapping, info: Info)
    returns (r: PassResult, out: seq<Entry>, conflicts: seq<ConflictFeature>, ghost src: seq<nat>)
    requires Rebasable(entries, info)
    ensures r == Done
    ensures ListsRebased(entries, info, mapping.mapIds, out, src) && TableByTable(out) && TablesInOrder(entries, out)
    ensures conflicts == ConflictsOf(entries, info, mapping.mapIds)
  {
    var changes: Changes, order: seq<Name> := map[], [];
    ghost var positions: Positions := map[];
    conflicts := [];
    for n := 0 to |entries|
      invariant Filed(entries, info, mapping.mapIds, n, order, changes, positions)
      invariant conflicts == ConflictsOf(entries[..n], info, mapping.mapIds)
    {
      r, order, changes, conflicts, positions := FileEntry(entries, n, mapping, info, order, changes, conflicts, positions);
    }
    assert entries[..|entries|] == entries;
    out, src := WriteGroups(entries, info, mapping.mapIds, order, changes, positions);
    r := Done;
  }

  lemma WriteNext(es: seq<Entry>, info: Info, maps: KeyMaps, order: seq<Name>, k: nat, out: seq<Entry>, src: seq<nat>, changes: Changes, positions: Positions)
    requires Rebasable(es, info) && AllGrouped(es, info, maps, |es|, order, changes, positions)
    requires k < |order| && PartWritten(es, info, maps, order[..k], out, src)
    ensures PartWritten(es, info, maps, order[..k + 1], out + ChangesOf(changes, order[k]), src + PositionsOf(positions, order[k]))
  {
    var t := order[k];
    WriteGroup(es, info, maps, order[..k], out, src, t, ChangesOf(changes, t), PositionsOf(positions, t));
    assert order[..k + 1] == order[..k] + [t];
  }

  /** A group holds entries of its own table only. */
  lemma NextBlock(es: seq<Entry>, info: Info, maps: KeyMaps, order: seq<Name>, k: nat, out: seq<Entry>, changes: Changes, positions: Positions)
    requires Rebasable(es, info) && AllGrouped(es, info, maps, |es|, order, changes, positions)
    requires k < |order| && InBlocks(out, order[..k]) && FirstNames(es, |es|, order) && TablesInOrder(es, out)
    ensures InBlocks(out + ChangesOf(changes, order[k]), order[..k + 1])
    ensures TablesInOrder(es, out + ChangesOf(changes, order[k]))
  {
    var t := order[k];
    var ch, pos := ChangesOf(changes, t), PositionsOf(positions, t);
    assert Grouped(es, info, maps, |es|, t, ch, pos);
    forall j | 0 <= j < |ch| ensures ch[j].table.name == t {
      KeepsTable(es[pos[j]], info, maps);
    }
    assert order[..k + 1] == order[..k] + [t];
    AddBlock(out, ch, order[..k], t);
    GroupInOrder(es, order, k, out, ch);
  }

  lemma KeepsTable(e: Entry, info: Info, maps: KeyMaps)
    requires RebasableEntry(e, info)
    ensures RebaseOne(e, info, maps).entry.Some? ==> RebaseOne(e, info, maps).entry.value.table == e.table
  {
  }

  method WriteGroups(ghost es: seq<Entry>, ghost info: Info, ghost maps: KeyMaps, order: seq<Name>, changes: Changes, ghost positions: Positions)
    returns (out: seq<Entry>, ghost src: seq<nat>)
    requires Rebasable(es, info) && Filed(es, info, maps, |es|, order, changes, positions)
    ensures ListsRebased(es, info, maps, out, src) && TableByTable(out) && TablesInOrder(es, out)
  {
    out, src := [], [];
    for k := 0 to |order|
      invariant PartWritten(es, info, maps, order[..k], out, src) && InBlocks(out, order[..k]) && TablesInOrder(es, out)
    {
      NextBlock(es, info, maps, order, k, out, changes, positions);
      WriteNext(es, info, maps, order, k, out, src, changes, positions);
      out := out + ChangesOf(changes, order[k]);
      src := src + PositionsOf(positions, order[k]);
    }
    assert order[..|order|] == order;
  }

  // ----- Rebase -----

  datatype RebaseResult =
    | RebasedTo(entries: seq<Entry>, conflicts: seq<ConflictFeature>)
    | RebaseFailed(error: RebaseError)

  lemma {:induction false} InfoFitsSchema(s: Schema, es: seq<Entry>, t: Name)
    requires OverSchema(s, es) && KeyedIn(es, t) && t in s
    ensures InfoFits(InfoOf(t, es), s[t])
    decreases |es|
  {
    if es != [] {
      InfoFitsSchema(s, es[..|es| - 1], t);
    }
  }

  lemma RecordedRebasable(s: Schema, theirs: seq<Entry>, ours: seq<Entry>)
    requires OverSchema(s, theirs) && OverSchema(s, ours) && AllKeyed(theirs)
    ensures Rebasable(ours, InfoFor(theirs))
    ensures forall t | t in InfoFor(theirs) :: KeyedIn(ours, t)
  {
    forall i | 0 <= i < |ours| ensures RebasableEntry(ours[i], InfoFor(theirs)) {
      var t := ours[i].table.name;
      if t in InfoFor(theirs) {
        var j :| 0 <= j < |theirs| && theirs[j].table.name == t;
        assert KeyedIn(theirs, t);
        assert HasKey(theirs[j].table) && EntryOver(s, theirs[j]) && EntryOver(s, ours[i]);
        InfoFitsSchema(s, theirs, t);
      }
    }
  }

  /** The three passes. The only error left is an entry of theirs without a key column. */
  method RebaseEntries(ghost s: Schema, theirs: seq<Entry>, ours: seq<Entry>, visit: Visit)
    returns (r: RebaseResult, ghost maps: KeyMaps, ghost src: seq<nat>)
    requires OverSchema(s, theirs) && OverSchema(s, ours) && ValidVisit(visit)
    ensures if AllKeyed(theirs) then r.RebasedTo? && TablesInOrder(ours, r.entries) && TableByTable(r.entries) else r == RebaseFailed(NoPrimaryKey)
    ensures AllKeyed(theirs) ==>
              && Rebasable(ours, InfoFor(theirs)) && (forall t | t in InfoFor(theirs) :: KeyedIn(ours, t))
              && MapsBuilt(InfoFor(theirs), ours, VisitOrders(visit, InfoFor(theirs), ours), maps)
              && ListsRebased(ours, InfoFor(theirs), maps, r.entries, src)
              && r.conflicts == ConflictsOf(ours, InfoFor(theirs), maps)
  {
    maps, src := map[], [];
    var dbInfo := new DatabaseRebaseInfo();
    var ok := dbInfo.ParseOldChangeset(theirs);
    if ok != Done {
      ghost var i :| 0 <= i < |theirs| && !HasKey(theirs[i].table);
      assert !KeyedIn(theirs, theirs[i].table.name);
      return RebaseFailed(ok.error), maps, src;
    }
    RecordedRebasable(s, theirs, ours);
    var mapping := new RebaseMapping();
    ok := FindMappingForNewChangeset(ours, dbInfo.tables, mapping, visit);
    var out, conflicts;
    ok, out, conflicts, src := PrepareNewChangeset(ours, mapping, dbInfo.tables);
    maps := mapping.mapIds;
    r := RebasedTo(out, conflicts);
  }
}
