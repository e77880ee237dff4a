/** The binary changeset format: what is written, and what reading a buffer means. */
module Wire {
  import opened Values
  import Varint

  // ----- Writing -----

  const TABLE_RECORD: byte := 84 // 'T'
  const MAX_COLUMNS: nat := 65536
  const POW32: nat := 0x1_0000_0000
  const POW63: nat := 0x8000_0000_0000_0000

  /** Integers and doubles take this many bytes. */
  const WORD: nat := 8

  function OpByte(op: Op): byte {
    match op
    case Insert => 18
    case Update => 23
    case Delete => 9
  }

  function BigEndian(x: nat, n: nat): (r: seq<byte>)
    ensures |r| == n
  {
    if n == 0 then [] else if n == 1 then [x % 256] else BigEndian(x / 256, n - 1) + [x % 256]
  }

  function FromBigEndian(bs: seq<byte>): nat {
    if bs == [] then 0 else FromBigEndian(bs[..|bs| - 1]) * 256 + bs[|bs| - 1]
  }

  /** An int64 as its bit pattern. */
  function ToBits(n: int): (bits: nat)
    requires -(POW63 as int) <= n < POW63
    ensures bits < POW64 && FromBits(bits) == n
  {
    if n < 0 then n + POW64 else n
  }

  function FromBits(bits: nat): int {
    if bits < POW63 then bits else bits - POW64
  }

  /** Integers and doubles are 64 bits wide. */
  predicate Fits64(v: Value) {
    match v
    case Int(n) => -(POW63 as int) <= n < POW63
    case Double(bits) => bits < POW64
    case _ => true
  }

  /** Lengths are written as 32-bit numbers: only shorter texts and blobs can be read back. */
  predicate Writable(v: Value) {
    && Fits64(v)
    && (v.Text? ==> |v.text| < POW32)
    && (v.Blob? ==> |v.blob| < POW32)
  }

  function EncodeLength(n: nat): (r: seq<byte>)
    ensures |r| >= 1
  {
    Varint.Encode(n % POW32)
  }

  function EncodeValue(v: Value): (r: seq<byte>)
    requires Fits64(v)
    ensures |r| >= 1
  {
    match v
    case Undefined => [0]
    case Int(n) => [1] + BigEndian(ToBits(n), WORD)
    case Double(bits) => [2] + BigEndian(bits, WORD)
    case Text(s) => [3] + (EncodeLength(|s|) + s)
    case Blob(s) => [4] + (EncodeLength(|s|) + s)
    case Null => [5]
  }

  predicate RowFits64(vals: Row) {
    forall i | 0 <= i < |vals| :: Fits64(vals[i])
  }

  predicate WritableRow(vals: Row) {
    forall i | 0 <= i < |vals| :: Writable(vals[i])
  }

  /** Codes one after the other, then what follows them. */
  function Join(codes: seq<seq<byte>>, rest: seq<byte>): seq<byte> {
    if codes == [] then rest else codes[0] + Join(codes[1..], rest)
  }

  function ValueCodes(vals: Row): (codes: seq<seq<byte>>)
    requires RowFits64(vals)
    ensures |codes| == |vals|
  {
    seq(|vals|, i requires 0 <= i < |vals| => EncodeValue(vals[i]))
  }

  function FlagsThen(pks: seq<bool>, rest: seq<byte>): seq<byte> {
    if pks == [] then rest else [if pks[0] then 1 else 0] + FlagsThen(pks[1..], rest)
  }

  function ZeroEnded(name: Name): seq<byte> {
    if name == [] then [0] else [name[0]] + ZeroEnded(name[1..])
  }

  function EncodeHeader(t: ChangesetTable): seq<byte> {
    [TABLE_RECORD] + (EncodeLength(t.ColumnCount()) + FlagsThen(t.primaryKeys, ZeroEnded(t.name)))
  }

  /** The rows the operation uses. */
  predicate EntryFits64(e: Entry) {
    && (e.op != Insert ==> RowFits64(e.oldValues))
    && (e.op != Delete ==> RowFits64(e.newValues))
  }

  predicate WritableEntry(e: Entry) {
    && (e.op != Insert ==> WritableRow(e.oldValues))
    && (e.op != Delete ==> WritableRow(e.newValues))
  }

  function EncodeRows(e: Entry): seq<byte>
    requires EntryFits64(e)
  {
    match e.op
    case Insert => Join(ValueCodes(e.newValues), [])
    case Delete => Join(ValueCodes(e.oldValues), [])
    case Update => Join(ValueCodes(e.oldValues), Join(ValueCodes(e.newValues), []))
  }

  /** An entry does not name its table: it belongs to the header before it. */
  function EncodeEntry(e: Entry): (r: seq<byte>)
    requires EntryFits64(e)
    ensures |r| >= 2
  {
    [OpByte(e.op), 0] + EncodeRows(e)
  }

  datatype Record = Header(table: ChangesetTable) | Change(entry: Entry)

  predicate WritableTable(t: ChangesetTable) {
    t.ColumnCount() <= MAX_COLUMNS && 0 !in t.name
  }

  predicate WritableRecord(r: Record) {
    match r
    case Header(t) => WritableTable(t)
    case Change(e) => WritableEntry(e)
  }

  function EncodeRecord(r: Record): (bs: seq<byte>)
    requires WritableRecord(r)
    ensures |bs| >= 1
  {
    match r
    case Header(t) => EncodeHeader(t)
    case Change(e) => EncodeEntry(e)
  }

  predicate WritableAll(rs: seq<Record>) {
    forall i | 0 <= i < |rs| :: WritableRecord(rs[i])
  }

  function RecordCodes(rs: seq<Record>): (codes: seq<seq<byte>>)
    requires WritableAll(rs)
    ensures |codes| == |rs|
  {
    seq(|rs|, i requires 0 <= i < |rs| => EncodeRecord(rs[i]))
  }

  function EncodeAll(rs: seq<Record>): seq<byte>
    requires WritableAll(rs)
  {
    Join(RecordCodes(rs), [])
  }

  // ----- Reading -----

  /** A value and where it ends, or where reading failed. */
  datatype Parsed<T> = Ok(value: T, next: nat) | Fail(at: nat)

  ghost predicate Forward<T>(p: Parsed<T>, i: nat, end: nat) {
    match p
    case Ok(_, next) => i <= next <= end
    case Fail(at) => i <= at <= end
  }

  function ParseByte(buf: seq<byte>, i: nat): (p: Parsed<byte>)
    requires i <= |buf|
    ensures Forward(p, i, |buf|) && (p.Ok? ==> i < p.next)
  {
    if i >= |buf| then Fail(i) else Ok(buf[i], i + 1)
  }

  function ParseLength(buf: seq<byte>, i: nat): (p: Parsed<nat>)
    requires i <= |buf|
    ensures Forward(p, i, |buf|) && (p.Ok? ==> p.value < POW32)
  {
    match Varint.Clamp(Varint.Decode(buf[i..]))
    case Got(v, n) => Ok(v, i + n)
    case _ => Fail(i)
  }

  function ParseBytes(buf: seq<byte>, i: nat, n: nat): (p: Parsed<seq<byte>>)
    requires i <= |buf|
    ensures Forward(p, i, |buf|) && (p.Ok? ==> |p.value| == n)
  {
    if i + n > |buf| then Fail(i) else Ok(buf[i..i + n], i + n)
  }

  /** A length, then as many bytes. */
  function ParseSized(buf: seq<byte>, i: nat): (p: Parsed<seq<byte>>)
    requires i <= |buf|
    ensures Forward(p, i, |buf|) && (p.Ok? ==> |p.value| < POW32)
  {
    match ParseLength(buf, i)
    case Fail(at) => Fail(at)
    case Ok(n, j) => ParseBytes(buf, j, n)
  }

  lemma {:induction false} BigEndianBound(bs: seq<byte>)
    ensures FromBigEndian(bs) < Pow256(|bs|)
    decreases |bs|
  {
    if bs != [] {
      BigEndianBound(bs[..|bs| - 1]);
    }
  }

  function Pow256(n: nat): nat {
    if n == 0 then 1 else 256 * Pow256(n - 1)
  }

  lemma EightBytes()
    ensures Pow256(WORD) == POW64
  {
    assert Pow256(4) == POW32;
    assert Pow256(6) == 0x1_0000 * Pow256(4);
  }

  function ParseFixed(buf: seq<byte>, i: nat): (p: Parsed<nat>)
    requires i <= |buf|
    ensures Forward(p, i, |buf|) && (p.Ok? ==> p.value < POW64)
  {
    match ParseBytes(buf, i, WORD)
    case Fail(at) => Fail(at)
    case Ok(bs, next) =>
      BigEndianBound(bs);
      EightBytes();
      Ok(FromBigEndian(bs), next)
  }

  function ParseValue(buf: seq<byte>, i: nat): (p: Parsed<Value>)
    requires i <= |buf|
    ensures Forward(p, i, |buf|) && (p.Ok? ==> i < p.next && Writable(p.value))
  {
    match ParseByte(buf, i)
    case Fail(at) => Fail(at)
    case Ok(typ, j) =>
      if typ == 1 || typ == 2 then
        match ParseFixed(buf, j)
        case Fail(at) => Fail(at)
        case Ok(bits, next) => Ok(if typ == 1 then Int(FromBits(bits)) else Double(bits), next)
      else if typ == 3 || typ == 4 then
        match ParseSized(buf, j)
        case Fail(at) => Fail(at)
        case Ok(s, next) => Ok(if typ == 3 then Text(s) else Blob(s), next)
      else if typ == 5 then Ok(Null, j)
      else if typ == 0 then Ok(Undefined, j)
      else Fail(j)
  }

  function ParseRow(buf: seq<byte>, i: nat, n: nat): (p: Parsed<Row>)
    requires i <= |buf|
    ensures Forward(p, i, |buf|) && (p.Ok? ==> |p.value| == n && WritableRow(p.value))
    decreases n
  {
    if n == 0 then Ok([], i)
    else
      match ParseValue(buf, i)
      case Fail(at) => Fail(at)
      case Ok(v, j) =>
        match ParseRow(buf, j, n - 1)
        case Fail(at) => Fail(at)
        case Ok(vals, next) => Ok([v] + vals, next)
  }

  function ParseFlags(buf: seq<byte>, i: nat, n: nat): (p: Parsed<seq<bool>>)
    requires i <= |buf|
    ensures Forward(p, i, |buf|) && (p.Ok? ==> |p.value| == n)
    decreases n
  {
    if n == 0 then Ok([], i)
    else
      match ParseByte(buf, i)
      case Fail(at) => Fail(at)
      case Ok(b, j) =>
        match ParseFlags(buf, j, n - 1)
        case Fail(at) => Fail(at)
        case Ok(flags, next) => Ok([b != 0] + flags, next)
  }

  /** The first zero byte from i on, or the end of the buffer. */
  function NameEnd(buf: seq<byte>, i: nat): (j: nat)
    requires i <= |buf|
    ensures i <= j <= |buf|
    ensures (forall k | i <= k < j :: buf[k] != 0) && (j < |buf| ==> buf[j] == 0)
    decreases |buf| - i
  {
    if i == |buf| || buf[i] == 0 then i else NameEnd(buf, i + 1)
  }

  function ParseName(buf: seq<byte>, i: nat): (p: Parsed<Name>)
    requires i <= |buf|
    ensures Forward(p, i, |buf|) && (p.Ok? ==> 0 !in p.value)
  {
    var j := NameEnd(buf, i);
    if j == |buf| then Fail(j) else Ok(buf[i..j], j + 1)
  }

  function ParseTable(buf: seq<byte>, i: nat): (p: Parsed<ChangesetTable>)
    requires i <= |buf|
    ensures Forward(p, i, |buf|) && (p.Ok? ==> WritableTable(p.value))
  {
    match ParseLength(buf, i)
    case Fail(at) => Fail(at)
    case Ok(n, j) =>
      if n > MAX_COLUMNS then Fail(j)
      else
        match ParseFlags(buf, j, n)
        case Fail(at) => Fail(at)
        case Ok(pks, k) =>
          match ParseName(buf, k)
          case Fail(at) => Fail(at)
          case Ok(name, next) => Ok(ChangesetTable(name, pks), next)
  }

  /** The key flags of n columns, false where the buffer has ended. */
  function Flags(buf: seq<byte>, i: nat, n: nat): (pks: seq<bool>)
    ensures |pks| == n
  {
    seq(n, k requires 0 <= k < n => i + k < |buf| && buf[i + k] != 0)
  }

  lemma {:induction false} FlagsParse(buf: seq<byte>, i: nat, n: nat)
    requires i <= |buf|
    ensures ParseFlags(buf, i, n) == if i + n <= |buf| then Ok(Flags(buf, i, n), i + n) else Fail(|buf|)
    decreases n
  {
    if n > 0 && i < |buf| {
      FlagsParse(buf, i + 1, n - 1);
      assert Flags(buf, i, n) == [buf[i] != 0] + Flags(buf, i + 1, n - 1);
    } else if n == 0 {
      assert Flags(buf, i, n) == [];
    }
  }

  /** The reader's table after a header, also a broken one: its flags are set before its name. */
  function TableLeft(buf: seq<byte>, i: nat, t: ChangesetTable): ChangesetTable
    requires i <= |buf|
  {
    match ParseLength(buf, i)
    case Fail(_) => t
    case Ok(n, j) =>
      if n > MAX_COLUMNS then t
      else
        var p := ParseTable(buf, i);
        ChangesetTable(if p.Ok? then p.value.name else t.name, Flags(buf, j, n))
  }

  /** The rows of an entry of table t, after its operation and flag. */
  function ParseRows(buf: seq<byte>, i: nat, t: ChangesetTable, op: Op): (p: Parsed<Entry>)
    requires i <= |buf|
    ensures Forward(p, i, |buf|)
    ensures p.Ok? ==> p.value.op == op && p.value.table == t && p.value.WellShaped() && WritableEntry(p.value) && p.value == p.value.Written()
  {
    match (if op == Insert then Ok([], i) else ParseRow(buf, i, t.ColumnCount()))
    case Fail(at) => Fail(at)
    case Ok(oldValues, j) =>
      match (if op == Delete then Ok([], j) else ParseRow(buf, j, t.ColumnCount()))
      case Fail(at) => Fail(at)
      case Ok(newValues, next) => Ok(Entry(op, oldValues, newValues, t), next)
  }

  function OpOf(b: byte): Option<Op> {
    if b == 18 then Some(Insert) else if b == 23 then Some(Update) else if b == 9 then Some(Delete) else None
  }

  /** The record at i, where t is the current table. */
  function ParseRecord(buf: seq<byte>, i: nat, t: ChangesetTable): (p: Parsed<Record>)
    requires i < |buf|
    ensures Forward(p, i, |buf|) && (p.Ok? ==> i < p.next && WritableRecord(p.value))
    ensures p.Ok? && p.value.Change? ==> p.value.entry.table == t && p.value.entry.WellShaped() && p.value.entry == p.value.entry.Written()
  {
    var j := i + 1;
    if buf[i] == TABLE_RECORD then
      match ParseTable(buf, j)
      case Fail(at) => Fail(at)
      case Ok(t', next) => Ok(Header(t'), next)
    else
      match OpOf(buf[i])
      case None => Fail(j)
      case Some(op) =>
        match ParseByte(buf, j)
        case Fail(at) => Fail(at)
        case Ok(_, k) =>
          match ParseRows(buf, k, t, op)
          case Fail(at) => Fail(at)
          case Ok(e, next) => Ok(Change(e), next)
  }

  datatype NextResult = EndOfFile | Found(entry: Entry) | Malformed

  /** What NextEntry returns and where it leaves the reader. */
  datatype Step = Step(result: NextResult, offset: nat, table: ChangesetTable)

  /** Headers are read over until an entry comes. */
  function Next(buf: seq<byte>, i: nat, t: ChangesetTable): (s: Step)
    requires i <= |buf|
    ensures i <= s.offset <= |buf|
    ensures s.result.EndOfFile? ==> s.offset == |buf|
    ensures s.result.Found? ==>
              var e := s.result.entry;
              i < s.offset && e.table == s.table && e.WellShaped() && WritableEntry(e) && e == e.Written()
    ensures s.result.Found? && WritableTable(t) ==> WritableTable(s.table)
    decreases |buf| - i
  {
    if i == |buf| then Step(EndOfFile, i, t)
    else
      match ParseRecord(buf, i, t)
      case Fail(at) => Step(Malformed, at, if buf[i] == TABLE_RECORD then TableLeft(buf, i + 1, t) else t)
      case Ok(Header(t'), next) => Next(buf, next, t')
      case Ok(Change(e), next) => Step(Found(e), next, t)
  }

  datatype Contents = Contents(entries: seq<Entry>, complete: bool)

  /** All entries from i on, up to the end or the first error. */
  function ReadAll(buf: seq<byte>, i: nat, t: ChangesetTable): Contents
    requires i <= |buf|
    decreases |buf| - i
  {
    var s := Next(buf, i, t);
    match s.result
    case EndOfFile => Contents([], true)
    case Malformed => Contents([], false)
    case Found(e) =>
      var rest := ReadAll(buf, s.offset, s.table);
      Contents([e] + rest.entries, rest.complete)
  }

  /** Before its first header a reader is in a table without name or columns. */
  const NO_TABLE := ChangesetTable([], [])

  function Read(buf: seq<byte>): Contents {
    ReadAll(buf, 0, NO_TABLE)
  }

  // ----- Reading back what was written -----

  /** `s` stands at position i. */
  ghost predicate At(buf: seq<byte>, i: nat, s: seq<byte>) {
    i + |s| <= |buf| && forall k | i <= k < i + |s| :: buf[k] == s[k - i]
  }

  lemma AtSlice(buf: seq<byte>, i: nat, s: seq<byte>)
    requires At(buf, i, s)
    ensures buf[i..i + |s|] == s
  {
  }

  lemma AtSplit(buf: seq<byte>, i: nat, a: seq<byte>, b: seq<byte>)
    requires At(buf, i, a + b)
    ensures At(buf, i, a) && At(buf, i + |a|, b)
  {
    forall k | i <= k < i + |a| ensures buf[k] == a[k - i] {
      assert buf[k] == (a + b)[k - i];
    }
    forall k | i + |a| <= k < i + |a| + |b| ensures buf[k] == b[k - i - |a|] {
      assert buf[k] == (a + b)[k - i];
    }
  }

  lemma {:induction false} BigEndianBack(x: nat, n: nat)
    requires x < Pow256(n)
    ensures FromBigEndian(BigEndian(x, n)) == x
  {
    if n > 0 {
      BigEndianBack(x / 256, n - 1);
      assert BigEndian(x, n)[..n - 1] == BigEndian(x / 256, n - 1);
    }
  }

  lemma ReadsFixed(buf: seq<byte>, i: nat, x: nat)
    requires x < POW64 && At(buf, i, BigEndian(x, WORD))
    ensures ParseFixed(buf, i) == Ok(x, i + WORD)
  {
    EightBytes();
    BigEndianBack(x, WORD);
    AtSlice(buf, i, BigEndian(x, WORD));
  }

  lemma SliceFrom(buf: seq<byte>, i: nat, s: seq<byte>)
    requires At(buf, i, s)
    ensures buf[i..] == s + buf[i + |s|..]
  {
  }

  lemma ReadsVarint(buf: seq<byte>, i: nat, n: nat)
    requires n < POW32 && At(buf, i, Varint.Encode(n))
    ensures ParseLength(buf, i) == Ok(n, i + |Varint.Encode(n)|)
  {
    SliceFrom(buf, i, Varint.Encode(n));
    Varint.RoundTrip(n, buf[i + |Varint.Encode(n)|..]);
  }

  lemma ReadsLength(buf: seq<byte>, i: nat, n: nat)
    requires n < POW32 && At(buf, i, EncodeLength(n))
    ensures ParseLength(buf, i) == Ok(n, i + |EncodeLength(n)|)
  {
    assert n % POW32 == n;
    ReadsVarint(buf, i, n);
  }

  lemma ReadsSized(buf: seq<byte>, i: nat, s: seq<byte>)
    requires |s| < POW32 && At(buf, i, EncodeLength(|s|) + s)
    ensures ParseSized(buf, i) == Ok(s, i + |EncodeLength(|s|)| + |s|)
  {
    AtSplit(buf, i, EncodeLength(|s|), s);
    ReadsLength(buf, i, |s|);
    AtSlice(buf, i + |EncodeLength(|s|)|, s);
  }

  lemma ReadsNumber(buf: seq<byte>, i: nat, typ: byte, bits: nat)
    requires (typ == 1 || typ == 2) && bits < POW64 && At(buf, i, [typ] + BigEndian(bits, WORD))
    ensures ParseValue(buf, i) == Ok(if typ == 1 then Int(FromBits(bits)) else Double(bits), i + 9)
  {
    AtSplit(buf, i, [typ], BigEndian(bits, WORD));
    ReadsFixed(buf, i + 1, bits);
  }

  lemma ReadsString(buf: seq<byte>, i: nat, typ: byte, s: seq<byte>)
    requires (typ == 3 || typ == 4) && |s| < POW32 && At(buf, i, [typ] + (EncodeLength(|s|) + s))
    ensures ParseValue(buf, i) == Ok(if typ == 3 then Text(s) else Blob(s), i + 1 + |EncodeLength(|s|)| + |s|)
  {
    AtSplit(buf, i, [typ], EncodeLength(|s|) + s);
    ReadsSized(buf, i + 1, s);
  }

  lemma ReadsValue(buf: seq<byte>, i: nat, v: Value)
    requires Writable(v) && At(buf, i, EncodeValue(v))
    ensures ParseValue(buf, i) == Ok(v, i + |EncodeValue(v)|)
  {
    match v
    case Int(n) => ReadsNumber(buf, i, 1, ToBits(n));
    case Double(bits) => ReadsNumber(buf, i, 2, bits);
    case Text(s) =>
      ReadsString(buf, i, 3, s);
    case Blob(s) =>
      ReadsString(buf, i, 4, s);
    case _ =>
      assert buf[i] == EncodeValue(v)[0];
  }

  /** Wherever `code` stands, the value v is read. */
  ghost predicate Reads(buf: seq<byte>, v: Value, code: seq<byte>) {
    forall j: nat :: At(buf, j, code) ==> ParseValue(buf, j) == Ok(v, j + |code|)
  }

  ghost predicate AllRead(buf: seq<byte>, vals: Row, codes: seq<seq<byte>>) {
    |codes| == |vals| && forall k | 0 <= k < |vals| :: Reads(buf, vals[k], codes[k])
  }

  lemma ValuesRead(buf: seq<byte>, vals: Row)
    requires WritableRow(vals)
    ensures AllRead(buf, vals, ValueCodes(vals))
  {
    forall k | 0 <= k < |vals| ensures Reads(buf, vals[k], ValueCodes(vals)[k]) {
      ValueRead(buf, vals[k]);
    }
  }

  lemma ValueRead(buf: seq<byte>, v: Value)
    requires Writable(v)
    ensures Reads(buf, v, EncodeValue(v))
  {
    forall j: nat | At(buf, j, EncodeValue(v)) ensures ParseValue(buf, j) == Ok(v, j + |EncodeValue(v)|) {
      ReadsValue(buf, j, v);
    }
  }

  lemma AtJoin(buf: seq<byte>, i: nat, codes: seq<seq<byte>>, rest: seq<byte>)
    requires codes != [] && At(buf, i, Join(codes, rest))
    ensures At(buf, i, codes[0]) && At(buf, i + |codes[0]|, Join(codes[1..], rest))
    ensures |Join(codes, rest)| == |codes[0]| + |Join(codes[1..], rest)|
  {
    AtSplit(buf, i, codes[0], Join(codes[1..], rest));
  }

  lemma RowFrom(buf: seq<byte>, i: nat, v: Value, j: nat, vals: Row, next: nat)
    requires i <= |buf| && j <= |buf| && ParseValue(buf, i) == Ok(v, j) && ParseRow(buf, j, |vals|) == Ok(vals, next)
    ensures ParseRow(buf, i, 1 + |vals|) == Ok([v] + vals, next)
  {
  }

  lemma {:induction false} ReadsRow(buf: seq<byte>, i: nat, vals: Row, codes: seq<seq<byte>>, rest: seq<byte>) returns (next: nat)
    requires AllRead(buf, vals, codes) && At(buf, i, Join(codes, rest))
    ensures ParseRow(buf, i, |vals|) == Ok(vals, next)
    ensures next + |rest| == i + |Join(codes, rest)| && At(buf, next, rest)
    decreases |vals|
  {
    if vals == [] {
      next := i;
    } else {
      var j := i + |codes[0]|;
      AtJoin(buf, i, codes, rest);
      assert Reads(buf, vals[0], codes[0]);
      next := ReadsRow(buf, j, vals[1..], codes[1..], rest);
      RowFrom(buf, i, vals[0], j, vals[1..], next);
      assert vals == [vals[0]] + vals[1..];
    }
  }

  lemma {:induction false} ReadsFlags(buf: seq<byte>, i: nat, pks: seq<bool>, rest: seq<byte>)
    requires At(buf, i, FlagsThen(pks, rest))
    ensures ParseFlags(buf, i, |pks|) == Ok(pks, i + |pks|)
    ensures |FlagsThen(pks, rest)| == |pks| + |rest| && At(buf, i + |pks|, rest)
    decreases |pks|
  {
    if pks != [] {
      var head := [if pks[0] then 1 else 0];
      AtSplit(buf, i, head, FlagsThen(pks[1..], rest));
      assert buf[i] == head[0];
      ReadsFlags(buf, i + 1, pks[1..], rest);
      assert pks == [pks[0]] + pks[1..];
    }
  }

  lemma {:induction false} ReadsName(buf: seq<byte>, i: nat, name: Name)
    requires 0 !in name && At(buf, i, ZeroEnded(name))
    ensures ParseName(buf, i) == Ok(name, i + |name| + 1) && |ZeroEnded(name)| == |name| + 1
    ensures NameEnd(buf, i) == i + |name|
    decreases |name|
  {
    if name == [] {
      assert buf[i] == [0][0];
      assert buf[i..i] == name;
    } else {
      AtSplit(buf, i, [name[0]], ZeroEnded(name[1..]));
      assert buf[i] == [name[0]][0] == name[0] && name[0] in name;
      ReadsName(buf, i + 1, name[1..]);
      var j := i + |name|;
      assert buf[i..j] == [buf[i]] + buf[i + 1..j];
      assert name == [name[0]] + name[1..];
    }
  }

  lemma TableFrom(buf: seq<byte>, i: nat, t: ChangesetTable, j: nat, k: nat, next: nat)
    requires i <= j <= k <= |buf| && t.ColumnCount() <= MAX_COLUMNS
    requires ParseLength(buf, i) == Ok(t.ColumnCount(), j) && ParseFlags(buf, j, t.ColumnCount()) == Ok(t.primaryKeys, k)
    requires ParseName(buf, k) == Ok(t.name, next)
    ensures ParseTable(buf, i) == Ok(t, next)
  {
  }

  lemma ReadsFlagsAndName(buf: seq<byte>, j: nat, pks: seq<bool>, name: Name, rest: seq<byte>) returns (k: nat, next: nat)
    requires 0 !in name && rest == ZeroEnded(name) && At(buf, j, FlagsThen(pks, rest))
    ensures j <= k <= next == j + |FlagsThen(pks, rest)| <= |buf|
    ensures ParseFlags(buf, j, |pks|) == Ok(pks, k) && ParseName(buf, k) == Ok(name, next)
  {
    k := j + |pks|;
    ReadsFlags(buf, j, pks, rest);
    ReadsName(buf, k, name);
    next := k + |name| + 1;
  }

  lemma ReadsTable(buf: seq<byte>, i: nat, t: ChangesetTable, j: nat, rest: seq<byte>) returns (next: nat)
    requires WritableTable(t) && i <= j <= |buf| && ParseLength(buf, i) == Ok(t.ColumnCount(), j)
    requires rest == ZeroEnded(t.name) && At(buf, j, FlagsThen(t.primaryKeys, rest))
    ensures ParseTable(buf, i) == Ok(t, next) && next == j + |FlagsThen(t.primaryKeys, rest)|
  {
    var k;
    k, next := ReadsFlagsAndName(buf, j, t.primaryKeys, t.name, rest);
    TableFrom(buf, i, t, j, k, next);
  }

  lemma ReadsHeader(buf: seq<byte>, i: nat, t0: ChangesetTable, t: ChangesetTable)
    requires WritableTable(t) && At(buf, i, EncodeHeader(t))
    ensures i < |buf| && ParseRecord(buf, i, t0) == Ok(Header(t), i + |EncodeHeader(t)|)
  {
    AtSplit(buf, i, [TABLE_RECORD], EncodeLength(t.ColumnCount()) + FlagsThen(t.primaryKeys, ZeroEnded(t.name)));
    assert buf[i] == [TABLE_RECORD][0];
    AtSplit(buf, i + 1, EncodeLength(t.ColumnCount()), FlagsThen(t.primaryKeys, ZeroEnded(t.name)));
    ReadsLength(buf, i + 1, t.ColumnCount());
    var next := ReadsTable(buf, i + 1, t, i + 1 + |EncodeLength(t.ColumnCount())|, ZeroEnded(t.name));
  }

  lemma ReadsRows(buf: seq<byte>, i: nat, t: ChangesetTable, e: Entry)
    requires WritableEntry(e) && e.(table := t).WellShaped() && At(buf, i, EncodeRows(e))
    ensures ParseRows(buf, i, t, e.op) == Ok(e.(table := t).Written(), i + |EncodeRows(e)|)
  {
    if e.op != Insert {
      ValuesRead(buf, e.oldValues);
    }
    if e.op != Delete {
      ValuesRead(buf, e.newValues);
    }
    match e.op
    case Insert => var next := ReadsRow(buf, i, e.newValues, ValueCodes(e.newValues), []);
    case Delete => var next := ReadsRow(buf, i, e.oldValues, ValueCodes(e.oldValues), []);
    case Update =>
      var j := ReadsRow(buf, i, e.oldValues, ValueCodes(e.oldValues), Join(ValueCodes(e.newValues), []));
      var next := ReadsRow(buf, j, e.newValues, ValueCodes(e.newValues), []);
  }

  /** An entry is read back under the current table, whatever table it was meant for. */
  lemma ReadsEntry(buf: seq<byte>, i: nat, t: ChangesetTable, e: Entry)
    requires WritableEntry(e) && e.(table := t).WellShaped() && At(buf, i, EncodeEntry(e))
    ensures i < |buf| && ParseRecord(buf, i, t) == Ok(Change(e.(table := t).Written()), i + |EncodeEntry(e)|)
  {
    AtSplit(buf, i, [OpByte(e.op), 0], EncodeRows(e));
    AtTwo(buf, i, OpByte(e.op), 0);
    ReadsRows(buf, i + 2, t, e);
    OpBack(e.op);
  }

  lemma AtTwo(buf: seq<byte>, i: nat, a: byte, b: byte)
    requires At(buf, i, [a, b])
    ensures i + 1 < |buf| && buf[i] == a && buf[i + 1] == b
  {
    assert [a, b][0] == a && [a, b][1] == b;
  }

  lemma OpBack(op: Op)
    ensures OpByte(op) != TABLE_RECORD && OpOf(OpByte(op)) == Some(op)
  {
  }

  /** Every entry has as many values as the table current where it stands has columns. */
  ghost predicate FitsHeaders(rs: seq<Record>, t: ChangesetTable) {
    rs != [] ==>
      match rs[0]
      case Header(t') => FitsHeaders(rs[1..], t')
      case Change(e) => e.(table := t).WellShaped() && FitsHeaders(rs[1..], t)
  }

  /** The entries as a reader finds them: each in its current table, without the rows its operation does not use. */
  ghost function EntriesOf(rs: seq<Record>, t: ChangesetTable): seq<Entry> {
    if rs == [] then []
    else
      match rs[0]
      case Header(t') => EntriesOf(rs[1..], t')
      case Change(e) => [e.(table := t).Written()] + EntriesOf(rs[1..], t)
  }

  predicate FitsTable(r: Record, t: ChangesetTable) {
    r.Change? ==> r.entry.(table := t).WellShaped()
  }

  /** A record as it is read when t is the current table. */
  function ReadIn(r: Record, t: ChangesetTable): Record {
    match r
    case Header(_) => r
    case Change(e) => Change(e.(table := t).Written())
  }

  /** Wherever `code` stands, record r is read. */
  ghost predicate Parses(buf: seq<byte>, r: Record, code: seq<byte>) {
    forall i: nat, t | At(buf, i, code) && FitsTable(r, t) ::
      i < |buf| && ParseRecord(buf, i, t) == Ok(ReadIn(r, t), i + |code|)
  }

  lemma RecordParses(buf: seq<byte>, r: Record)
    requires WritableRecord(r)
    ensures Parses(buf, r, EncodeRecord(r))
  {
    forall i: nat, t | At(buf, i, EncodeRecord(r)) && FitsTable(r, t)
      ensures i < |buf| && ParseRecord(buf, i, t) == Ok(ReadIn(r, t), i + |EncodeRecord(r)|)
    {
      ReadsRecord(buf, i, t, r);
    }
  }

  lemma ReadsRecord(buf: seq<byte>, i: nat, t: ChangesetTable, r: Record)
    requires WritableRecord(r) && At(buf, i, EncodeRecord(r)) && FitsTable(r, t)
    ensures i < |buf| && ParseRecord(buf, i, t) == Ok(ReadIn(r, t), i + |EncodeRecord(r)|)
  {
    match r
    case Header(t') => ReadsHeader(buf, i, t, t');
    case Change(e) => ReadsEntry(buf, i, t, e);
  }

  ghost predicate AllParse(buf: seq<byte>, rs: seq<Record>, codes: seq<seq<byte>>) {
    |codes| == |rs| && forall k | 0 <= k < |rs| :: Parses(buf, rs[k], codes[k])
  }

  lemma RecordsParse(buf: seq<byte>, rs: seq<Record>)
    requires WritableAll(rs)
    ensures AllParse(buf, rs, RecordCodes(rs))
  {
    forall k | 0 <= k < |rs| ensures Parses(buf, rs[k], RecordCodes(rs)[k]) {
      RecordParses(buf, rs[k]);
    }
  }

  /** A record read at i, then the rest from `next`. */
  lemma ReadAllStep(buf: seq<byte>, i: nat, t: ChangesetTable, r: Record, next: nat)
    requires i < |buf| && ParseRecord(buf, i, t) == Ok(r, next)
    ensures r.Header? ==> ReadAll(buf, i, t) == ReadAll(buf, next, r.table)
    ensures r.Change? ==> ReadAll(buf, i, t) == Contents([r.entry] + ReadAll(buf, next, t).entries, ReadAll(buf, next, t).complete)
  {
    if r.Header? {
      assert Next(buf, i, t) == Next(buf, next, r.table);
    } else {
      assert Next(buf, i, t) == Step(Found(r.entry), next, t);
    }
  }

  /** Records that fill the rest of a buffer are read as their entries. */
  lemma FirstParses(buf: seq<byte>, i: nat, t: ChangesetTable, rs: seq<Record>, codes: seq<seq<byte>>)
    requires AllParse(buf, rs, codes) && rs != [] && FitsHeaders(rs, t) && At(buf, i, codes[0])
    ensures i < |buf| && ParseRecord(buf, i, t) == Ok(ReadIn(rs[0], t), i + |codes[0]|)
    ensures AllParse(buf, rs[1..], codes[1..])
  {
    assert Parses(buf, rs[0], codes[0]) && FitsTable(rs[0], t);
  }

  lemma {:induction false} ReadsRecords(buf: seq<byte>, i: nat, t: ChangesetTable, rs: seq<Record>, codes: seq<seq<byte>>)
    requires AllParse(buf, rs, codes) && FitsHeaders(rs, t) && At(buf, i, Join(codes, [])) && i + |Join(codes, [])| == |buf|
    ensures ReadAll(buf, i, t) == Contents(EntriesOf(rs, t), true)
    decreases |rs|
  {
    if rs != [] {
      var next := i + |codes[0]|;
      AtJoin(buf, i, codes, []);
      FirstParses(buf, i, t, rs, codes);
      ReadAllStep(buf, i, t, ReadIn(rs[0], t), next);
      ReadsRecords(buf, next, if rs[0].Header? then rs[0].table else t, rs[1..], codes[1..]);
    }
  }

  /**
   Writing then reading: the entries come back in order, each in its table,
   and the end of the file is reached without an error.
   */
  lemma RoundTrip(rs: seq<Record>)
    requires WritableAll(rs) && FitsHeaders(rs, NO_TABLE)
    ensures Read(EncodeAll(rs)) == Contents(EntriesOf(rs, NO_TABLE), true)
  {
    RecordsParse(EncodeAll(rs), rs);
    ReadsRecords(EncodeAll(rs), 0, NO_TABLE, rs, RecordCodes(rs));
  }

  // ----- Whatever the reader accepts can be written -----

  /** An entry that came out of the reader. */
  ghost predicate FromReader(e: Entry) {
    e.WellShaped() && WritableEntry(e) && WritableTable(e.table) && e == e.Written()
  }

  lemma {:induction false} ReadIsWritable(buf: seq<byte>, i: nat, t: ChangesetTable)
    requires i <= |buf| && WritableTable(t)
    ensures forall k | 0 <= k < |ReadAll(buf, i, t).entries| :: FromReader(ReadAll(buf, i, t).entries[k])
    decreases |buf| - i
  {
    var s := Next(buf, i, t);
    if s.result.Found? {
      ReadIsWritable(buf, s.offset, s.table);
      assert FromReader(s.result.entry);
    }
  }

  /** Each entry takes at least one byte, so a buffer holds no more entries than bytes. */
  lemma {:induction false} ReadEnds(buf: seq<byte>, i: nat, t: ChangesetTable)
    requires i <= |buf|
    ensures |ReadAll(buf, i, t).entries| <= |buf| - i
    decreases |buf| - i
  {
    var s := Next(buf, i, t);
    if s.result.Found? {
      ReadEnds(buf, s.offset, s.table);
    }
  }
}
