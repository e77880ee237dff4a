/** The changeset reader (changeset/reader.go): a buffer, an offset and the current table. */
module Reader {
  import opened Values
  import Varint
  import opened Wire

  /** A parse result as the reader's methods report it: a value or nothing, and where the offset is left. */
  ghost predicate Reports<T>(p: Parsed<T>, r: Option<T>, offset: nat) {
    if p.Ok? then r == Some(p.value) && offset == p.next else r == None && offset == p.at
  }

  /** A row of one more value: what follows the values before it. */
  lemma {:induction false} RowSnoc(buf: seq<byte>, i: nat, n: nat)
    requires i <= |buf|
    ensures var p := ParseRow(buf, i, n);
            ParseRow(buf, i, n + 1) ==
            if p.Fail? then p
            else
              var v := ParseValue(buf, p.next);
              if v.Fail? then Fail(v.at) else Ok(p.value + [v.value], v.next)
    decreases n
  {
    var first := ParseValue(buf, i);
    if n == 0 {
      assert first.Ok? ==> ParseRow(buf, first.next, 0) == Ok([], first.next);
      assert first.Ok? ==> [first.value] + [] == [] + [first.value];
    }
    if n > 0 && first.Ok? {
      RowSnoc(buf, first.next, n - 1);
      var p := ParseRow(buf, first.next, n - 1);
      if p.Ok? && ParseValue(buf, p.next).Ok? {
        var v := ParseValue(buf, p.next).value;
        assert [first.value] + (p.value + [v]) == ([first.value] + p.value) + [v];
      }
    }
  }

  /** Where reading some values of a row fails, reading more of them does. */
  lemma {:induction false} RowFails(buf: seq<byte>, i: nat, m: nat, n: nat)
    requires i <= |buf| && m <= n && ParseRow(buf, i, m).Fail?
    ensures ParseRow(buf, i, n) == ParseRow(buf, i, m)
    decreases n - m
  {
    if m < n {
      RowFails(buf, i, m, n - 1);
      RowSnoc(buf, i, n - 1);
    }
  }

  class ChangesetReader {
    const buf: seq<byte>
    var offset: nat
    var currentTable: ChangesetTable

    ghost predicate Valid()
      reads this
    {
      offset <= |buf|
    }

    constructor (data: seq<byte>)
      ensures buf == data && offset == 0 && currentTable == NO_TABLE && Valid()
    {
      buf, offset, currentTable := data, 0, NO_TABLE;
    }

    predicate IsEmpty() {
      buf == []
    }

    method Rewind()
      modifies this
      ensures Valid() && offset == 0 && currentTable == NO_TABLE
    {
      offset, currentTable := 0, NO_TABLE;
    }

    method ReadByte() returns (r: Option<byte>)
      requires Valid()
      modifies this`offset
      ensures Valid() && Reports(ParseByte(buf, old(offset)), r, offset)
    {
      if offset >= |buf| {
        return None;
      }
      r := Some(buf[offset]);
      offset := offset + 1;
    }

    method ReadVarint() returns (r: Option<nat>)
      requires Valid()
      modifies this`offset
      ensures Valid() && Reports(ParseLength(buf, old(offset)), r, offset)
    {
      var d := Varint.GetVarint(buf, offset);
      if offset == |buf| {
        assert buf[offset..] == [];
      }
      match d {
        case Got(v, n) =>
          offset := offset + n;
          r := Some(v);
        case _ =>
          r := None;
      }
    }

    method ReadNullTerminatedString() returns (r: Option<Name>)
      requires Valid()
      modifies this`offset
      ensures Valid() && Reports(ParseName(buf, old(offset)), r, offset)
    {
      var start := offset;
      while offset < |buf| && buf[offset] != 0
        invariant start <= offset <= |buf| && NameEnd(buf, offset) == NameEnd(buf, start)
        decreases |buf| - offset
      {
        offset := offset + 1;
      }
      if offset >= |buf| {
        return None;
      }
      r := Some(buf[start..offset]);
      offset := offset + 1;
    }

    /** A length-prefixed text or blob. */
    method ReadSized() returns (r: Option<seq<byte>>)
      requires Valid()
      modifies this`offset
      ensures Valid() && Reports(ParseSized(buf, old(offset)), r, offset)
    {
      var length := ReadVarint();
      if length.None? || offset + length.value > |buf| {
        return None;
      }
      r := Some(buf[offset..offset + length.value]);
      offset := offset + length.value;
    }

    method ReadUint64() returns (r: Option<nat>)
      requires Valid()
      modifies this`offset
      ensures Valid() && Reports(ParseFixed(buf, old(offset)), r, offset)
    {
      if offset + 8 > |buf| {
        return None;
      }
      r := Some(FromBigEndian(buf[offset..offset + 8]));
      offset := offset + 8;
    }

    method ReadValue() returns (r: Option<Value>)
      requires Valid()
      modifies this`offset
      ensures Valid() && Reports(ParseValue(buf, old(offset)), r, offset)
    {
      var typ := ReadByte();
      if typ.None? {
        return None;
      }
      match typ.value {
        case 1 =>
          var x := ReadUint64();
          return if x.Some? then Some(Int(FromBits(x.value))) else None;
        case 2 =>
          var bits := ReadUint64();
          return if bits.Some? then Some(Double(bits.value)) else None;
        case 3 =>
          var s := ReadSized();
          return if s.Some? then Some(Text(s.value)) else None;
        case 4 =>
          var data := ReadSized();
          return if data.Some? then Some(Blob(data.value)) else None;
        case 5 =>
          return Some(Null);
        case 0 =>
          return Some(Undefined);
        case _ =>
          return None;
      }
    }

    method ReadRowValues() returns (r: Option<Row>)
      requires Valid()
      modifies this`offset
      ensures Valid() && Reports(ParseRow(buf, old(offset), currentTable.ColumnCount()), r, offset)
    {
      var nCol := currentTable.ColumnCount();
      var values := [];
      for i := 0 to nCol
        invariant Valid()
        invariant ParseRow(buf, old(offset), i) == Ok(values, offset)
      {
        RowSnoc(buf, old(offset), i);
        var v := ReadValue();
        if v.None? {
          RowFails(buf, old(offset), i + 1, nCol);
          return None;
        }
        values := values + [v.value];
      }
      r := Some(values);
    }

    /** Sets the key flags of the current table, one byte each. */
    method ReadFlags(n: nat) returns (ok: bool)
      requires Valid()
      modifies this
      ensures Valid() && ok == (old(offset) + n <= |buf|) && offset == if ok then old(offset) + n else |buf|
      ensures currentTable == old(currentTable).(primaryKeys := Flags(buf, old(offset), n))
    {
      ghost var flags := Flags(buf, offset, n);
      currentTable := currentTable.(primaryKeys := seq(n, i => false));
      for i := 0 to n
        invariant offset == old(offset) + i <= |buf|
        invariant |currentTable.primaryKeys| == n && currentTable.name == old(currentTable).name
        invariant forall k | 0 <= k < n :: currentTable.primaryKeys[k] == (k < i && flags[k])
      {
        var b := ReadByte();
        if b.None? {
          assert currentTable.primaryKeys == flags;
          return false;
        }
        currentTable := currentTable.(primaryKeys := currentTable.primaryKeys[i := b.value != 0]);
      }
      assert currentTable.primaryKeys == flags;
      ok := true;
    }

    method ReadTableRecord() returns (ok: bool)
      requires Valid()
      modifies this
      ensures Valid()
      ensures var p := ParseTable(buf, old(offset));
              ok == p.Ok? && if p.Ok? then currentTable == p.value && offset == p.next else offset == p.at
      ensures currentTable == TableLeft(buf, old(offset), old(currentTable))
    {
      var nCol := ReadVarint();
      if nCol.None? || nCol.value > MAX_COLUMNS {
        return false;
      }
      FlagsParse(buf, offset, nCol.value);
      var flagged := ReadFlags(nCol.value);
      if !flagged {
        return false;
      }
      var name := ReadNullTerminatedString();
      if name.None? {
        return false;
      }
      currentTable := currentTable.(name := name.value);
      ok := true;
    }

    /** The rows of an entry whose operation and flag were read. */
    method ReadRows(op: Op) returns (r: Option<Entry>)
      requires Valid()
      modifies this`offset
      ensures Valid() && Reports(ParseRows(buf, old(offset), currentTable, op), r, offset)
    {
      var oldValues, newValues := [], [];
      if op != Insert {
        var vals := ReadRowValues();
        if vals.None? {
          return None;
        }
        oldValues := vals.value;
      }
      if op != Delete {
        var vals := ReadRowValues();
        if vals.None? {
          return None;
        }
        newValues := vals.value;
      }
      r := Some(Entry(op, oldValues, newValues, currentTable));
    }

    /**
     The next entry, the end of the buffer, or an error. Whatever the bytes
     are, the offset stays in the buffer and never goes back; an entry moves it
     forward.
     */
    method NextEntry() returns (r: NextResult)
      requires Valid()
      modifies this
      ensures Valid() && old(offset) <= offset && (r.Found? ==> old(offset) < offset)
      ensures var s := Next(buf, old(offset), old(currentTable));
              r == s.result && offset == s.offset && currentTable == s.table
    {
      while true
        invariant Valid() && old(offset) <= offset
        invariant Next(buf, offset, currentTable) == Next(buf, old(offset), old(currentTable))
        decreases |buf| - offset
      {
        if offset >= |buf| {
          return EndOfFile;
        }
        var typ := ReadByte();
        if typ.None? {
          assert false;
          return Malformed;
        }
        if typ.value == TABLE_RECORD {
          var ok := ReadTableRecord();
          if !ok {
            return Malformed;
          }
        } else {
          var op := OpOf(typ.value);
          if op.None? {
            return Malformed;
          }
          var flag := ReadByte();
          if flag.None? {
            return Malformed;
          }
          var e := ReadRows(op.value);
          return if e.Some? then Found(e.value) else Malformed;
        }
      }
    }
  }
}
