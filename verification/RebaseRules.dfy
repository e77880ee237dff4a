/** How one of our entries is rewritten on top of theirs (the handlers of driver/rebase.go). */
module RebaseRules {
  import opened Values
  import opened Rows
  import opened KeyMapping

  // ----- Keys of entries -----

  ghost predicate HasKey(t: ChangesetTable) {
    true in t.primaryKeys
  }

  /** The first key column. */
  function KeyColumn(pks: seq<bool>): (c: nat)
    requires true in pks
    ensures c < |pks| && pks[c] && forall j | 0 <= j < c :: !pks[j]
  {
    if pks[0] then 0 else assert pks == [pks[0]] + pks[1..]; 1 + KeyColumn(pks[1..])
  }

  /** A value that is not an integer counts as 0. */
  function AsInt(v: Value): int {
    if v.Int? then v.n else 0
  }

  function Pk(e: Entry): int
    requires e.WellShaped() && true in e.table.primaryKeys
  {
    AsInt(e.KeyValues()[KeyColumn(e.table.primaryKeys)])
  }

  // ----- Theirs, by table -----

  type Info = map<Name, TableInfo>

  const NO_INFO := TableInfo({}, {}, map[])

  function Record(ti: TableInfo, e: Entry): TableInfo
    requires e.WellShaped() && true in e.table.primaryKeys
  {
    match e.op
    case Insert => ti.(inserted := ti.inserted + {Pk(e)})
    case Delete => ti.(deleted := ti.deleted + {Pk(e)})
    case Update => ti.(updated := ti.updated[Pk(e) := e.newValues])
  }

  /** Entries of table t have a key column. */
  ghost predicate KeyedIn(es: seq<Entry>, t: Name) {
    forall i | 0 <= i < |es| && es[i].table.name == t :: HasKey(es[i].table)
  }

  ghost predicate AllKeyed(es: seq<Entry>) {
    forall t :: KeyedIn(es, t)
  }

  ghost function InfoOf(t: Name, es: seq<Entry>): TableInfo
    requires Shaped(es) && KeyedIn(es, t)
  {
    if es == [] then NO_INFO
    else
      var ti := InfoOf(t, es[..|es| - 1]);
      if es[|es| - 1].table.name == t then Record(ti, es[|es| - 1]) else ti
  }

  ghost function TableNames(es: seq<Entry>): set<Name> {
    set i | 0 <= i < |es| :: es[i].table.name
  }

  // ----- Our key mapping, by table -----

  ghost function MappingOf(t: Name, ti: TableInfo, es: seq<Entry>): Mapping
    requires Shaped(es) && KeyedIn(es, t)
  {
    if es == [] then NoMapping(ti)
    else
      var m := MappingOf(t, ti, es[..|es| - 1]);
      var e := es[|es| - 1];
      if e.table.name == t then Map(m, ti, e.op, Pk(e)) else m
  }

  type KeyMaps = map<Name, map<int, int>>

  function IdsOf(maps: KeyMaps, t: Name): map<int, int> {
    if t in maps then maps[t] else map[]
  }

  // ----- Conflicts -----

  datatype ConflictItem = ConflictItem(column: nat, base: Value, theirs: Value, ours: Value)

  datatype ConflictFeature = ConflictFeature(pk: int, table: Name, items: seq<ConflictItem>) {
    predicate IsValid() {
      items != []
    }
  }

  /** The last_change column of gpkg_contents. */
  predicate Exempt(t: Name, column: nat) {
    t == Ascii("gpkg_contents") && column == 4
  }

  /** One item per column below n that both sides set, to different values; theirs undefined means a deleted row. */
  function Items(e: Entry, patched: Row, deleted: bool, n: nat): seq<ConflictItem>
    requires e.op == Update && e.WellShaped() && n <= |patched| == e.table.ColumnCount()
  {
    if n == 0 then []
    else
      var i := n - 1;
      var rest := Items(e, patched, deleted, i);
      if !e.newValues[i].Undefined? && !Exempt(e.table.name, i) && (deleted || (!patched[i].Undefined? && patched[i] != e.newValues[i]))
      then rest + [ConflictItem(i, e.oldValues[i], if deleted then Undefined else patched[i], e.newValues[i])]
      else rest
  }

  function ReportedConflict(e: Entry, items: seq<ConflictItem>): Option<ConflictFeature>
    requires e.WellShaped() && true in e.table.primaryKeys
  {
    if items == [] then None else Some(ConflictFeature(Pk(e), e.table.name, items))
  }

  // ----- The three handlers -----

  function Blank(n: nat): (r: Row)
    ensures |r| == n
  {
    seq(n, i => Undefined)
  }

  /** Theirs' new values of the row; none for a row of ours that only shares the number. */
  function Patched(ti: TableInfo, ids: map<int, int>, pk: int, n: nat): Row {
    if pk in ti.updated && NewKey(ids, pk) == pk then ti.updated[pk] else Blank(n)
  }

  ghost predicate InfoFits(ti: TableInfo, t: ChangesetTable) {
    forall k | k in ti.updated :: |ti.updated[k]| == t.ColumnCount()
  }

  function Rekeyed(pks: seq<bool>, vals: Row, pk: int): (r: Row)
    requires |pks| == |vals|
    ensures |r| == |vals|
  {
    seq(|vals|, i requires 0 <= i < |vals| => if pks[i] then Int(pk) else vals[i])
  }

  function RebasedInsert(e: Entry, ids: map<int, int>): Entry
    requires e.op == Insert && e.WellShaped() && true in e.table.primaryKeys
  {
    Entry(Insert, [], Rekeyed(e.table.primaryKeys, e.newValues, NewKey(ids, Pk(e))), e.table)
  }

  function DeletedOld(e: Entry, newPk: int, patched: Row): (r: Row)
    requires e.op == Delete && e.WellShaped() && |patched| == e.table.ColumnCount()
    ensures |r| == e.table.ColumnCount()
  {
    seq(|patched|, i requires 0 <= i < |patched| =>
      if e.table.primaryKeys[i] then Int(newPk) else if !patched[i].Undefined? then patched[i] else e.oldValues[i])
  }

  /** Dropped when theirs deleted the row too. */
  function RebasedDelete(e: Entry, ids: map<int, int>, ti: TableInfo): Option<Entry>
    requires e.op == Delete && e.WellShaped() && true in e.table.primaryKeys && InfoFits(ti, e.table)
  {
    var pk := Pk(e);
    if pk in ids && ids[pk] == INVALID_FID then None
    else Some(Entry(Delete, DeletedOld(e, NewKey(ids, pk), Patched(ti, ids, pk, e.table.ColumnCount())), [], e.table))
  }

  /** Columns theirs changed are left out; a renumbered row takes its new key. */
  function UpdatedOld(e: Entry, patched: Row, ids: map<int, int>): (r: Row)
    requires e.op == Update && e.WellShaped() && |patched| == e.table.ColumnCount() && true in e.table.primaryKeys
    ensures |r| == e.table.ColumnCount()
  {
    var newPk := NewKey(ids, Pk(e));
    seq(|patched|, i requires 0 <= i < |patched| =>
      if newPk != Pk(e) && e.table.primaryKeys[i] then Int(newPk)
      else if patched[i].Undefined? then e.oldValues[i] else Undefined)
  }

  function UpdatedNew(e: Entry, patched: Row): (r: Row)
    requires e.op == Update && e.WellShaped() && |patched| == e.table.ColumnCount()
    ensures |r| == e.table.ColumnCount()
  {
    seq(|patched|, i requires 0 <= i < |patched| => if patched[i].Undefined? then e.newValues[i] else Undefined)
  }

  datatype Rebased = Rebased(entry: Option<Entry>, conflict: Option<ConflictFeature>)

  /** Dropped, with a conflict, when theirs deleted the row; dropped when nothing of ours is left. */
  function RebasedUpdate(e: Entry, ids: map<int, int>, ti: TableInfo): Rebased
    requires e.op == Update && e.WellShaped() && true in e.table.primaryKeys && InfoFits(ti, e.table)
  {
    var pk, n := Pk(e), e.table.ColumnCount();
    if pk in ids && ids[pk] == INVALID_FID then
      Rebased(None, ReportedConflict(e, Items(e, Blank(n), true, n)))
    else
      var patched := Patched(ti, ids, pk, n);
      Rebased(if AnyDefined(UpdatedNew(e, patched)) then Some(Entry(Update, UpdatedOld(e, patched, ids), UpdatedNew(e, patched), e.table))
              else None,
              ReportedConflict(e, Items(e, patched, false, n)))
  }

  ghost predicate RebasableEntry(e: Entry, info: Info) {
    e.WellShaped() && (e.table.name in info ==> HasKey(e.table) && InfoFits(info[e.table.name], e.table))
  }

  /** An entry of a table theirs did not touch passes through. */
  function RebaseOne(e: Entry, info: Info, maps: KeyMaps): Rebased
    requires RebasableEntry(e, info)
  {
    var t := e.table.name;
    if t !in info then Rebased(Some(e), None)
    else
      match e.op
      case Insert => Rebased(Some(RebasedInsert(e, IdsOf(maps, t))), None)
      case Delete => Rebased(RebasedDelete(e, IdsOf(maps, t), info[t]), None)
      case Update => RebasedUpdate(e, IdsOf(maps, t), info[t])
  }

  ghost predicate Rebasable(es: seq<Entry>, info: Info) {
    forall i | 0 <= i < |es| :: RebasableEntry(es[i], info)
  }

  /**
   `out` holds the rewritten form of every surviving entry once; entry j comes
   from position src[j] of `es`, and entries of one table keep their order.
   (The writer groups entries by table.)
   */
  ghost predicate ListsRebased(es: seq<Entry>, info: Info, maps: KeyMaps, out: seq<Entry>, src: seq<nat>)
    requires Rebasable(es, info)
  {
    && |src| == |out|
    && (forall j | 0 <= j < |src| :: src[j] < |es| && RebaseOne(es[src[j]], info, maps).entry == Some(out[j]))
    && (forall j, k | 0 <= j < k < |src| :: src[j] != src[k])
    && (forall j, k | 0 <= j < k < |src| && es[src[j]].table.name == es[src[k]].table.name :: src[j] < src[k])
    && (forall i | 0 <= i < |es| && RebaseOne(es[i], info, maps).entry.Some? :: i in src)
  }

  ghost function ConflictsOf(es: seq<Entry>, info: Info, maps: KeyMaps): seq<ConflictFeature>
    requires Rebasable(es, info)
  {
    if es == [] then []
    else
      var rest := ConflictsOf(es[..|es| - 1], info, maps);
      match RebaseOne(es[|es| - 1], info, maps).conflict
      case None => rest
      case Some(cf) => rest + [cf]
  }
}
