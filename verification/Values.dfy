/** Values, tables and entries of a changeset (changeset/types.go). */
module Values {

  type byte = b: int | 0 <= b < 256

  const POW64: nat := 0x1_0000_0000_0000_0000

  /** A Go string is a sequence of bytes. */
  type Name = seq<byte>

  function Ascii(s: string): (name: Name)
    requires forall i | 0 <= i < |s| :: s[i] < 128 as char
    ensures |name| == |s|
  {
    seq(|s|, i requires 0 <= i < |s| => s[i] as int)
  }

  datatype Option<+T> = None | Some(value: T)

  /** A column value. `Undefined` marks a column an UPDATE leaves alone.  A double is its 64-bit pattern. */
  datatype Value =
    | Undefined
    | Int(n: int)
    | Double(bits: nat)
    | Text(text: seq<byte>)
    | Blob(blob: seq<byte>)
    | Null

  type Row = seq<Value>

  datatype Op = Insert | Update | Delete

  /** A table header: its name and, for every column, whether it belongs to the primary key. */
  datatype ChangesetTable = ChangesetTable(name: Name, primaryKeys: seq<bool>) {
    function ColumnCount(): nat {
      |primaryKeys|
    }
  }

  /** INSERT uses `newValues`, DELETE uses `oldValues`, UPDATE uses both. */
  datatype Entry = Entry(op: Op, oldValues: Row, newValues: Row, table: ChangesetTable) {

    /** The value lists an operation uses have one value per column. */
    predicate WellShaped() {
      && (op != Insert ==> |oldValues| == table.ColumnCount())
      && (op != Delete ==> |newValues| == table.ColumnCount())
    }

    /** The values that carry the key: new ones for INSERT, old ones otherwise. */
    function KeyValues(): Row {
      if op == Insert then newValues else oldValues
    }

    /** The entry as the writer writes it: lists the operation does not use are dropped. */
    function Written(): Entry {
      match op
      case Insert => this.(oldValues := [])
      case Delete => this.(newValues := [])
      case Update => this
    }
  }

  /** Entries of one table stand next to each other. */
  ghost predicate TableByTable(es: seq<Entry>) {
    forall i, j, k | 0 <= i < j < k < |es| && es[i].table.name == es[k].table.name :: es[j].table.name == es[i].table.name
  }

  /** Table by table, and only of the tables `done`. */
  ghost predicate InBlocks(es: seq<Entry>, done: seq<Name>) {
    TableByTable(es) && forall i | 0 <= i < |es| :: es[i].table.name in done
  }

  lemma AddBlock(es: seq<Entry>, fs: seq<Entry>, done: seq<Name>, t: Name)
    requires InBlocks(es, done) && t !in done && forall i | 0 <= i < |fs| :: fs[i].table.name == t
    ensures InBlocks(es + fs, done + [t])
  {
    var all := es + fs;
    assert forall i | 0 <= i < |all| :: all[i] == if i < |es| then es[i] else fs[i - |es|];
  }

  predicate AllDefined(vals: Row) {
    forall i | 0 <= i < |vals| :: !vals[i].Undefined?
  }

  lemma SubsetSize<T>(a: set<T>, b: set<T>)
    requires a <= b
    ensures |a| <= |b|
  {
    assert b == a + (b - a);
  }

  lemma NonEmpty<T>(s: set<T>)
    requires s != {}
    ensures exists x :: x in s
  {
  }
}
