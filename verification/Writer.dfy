/** The changeset writer (changeset/writer.go): bytes appended to an output, one reused buffer. */
module Writer {
  import opened Values
  import Varint
  import opened Wire

  lemma JoinSnoc(codes: seq<seq<byte>>, code: seq<byte>)
    ensures Join(codes + [code], []) == Join(codes, []) + code
    decreases |codes|
  {
    if codes == [] {
      assert codes + [code] == [code] && [code][1..] == [];
      assert Join([code], []) == code + [] == code;
      assert Join(codes, []) + code == code;
    } else {
      assert (codes + [code])[0] == codes[0] && (codes + [code])[1..] == codes[1..] + [code];
      JoinSnoc(codes[1..], code);
      Associate(codes[0], Join(codes[1..], []), code);
    }
  }

  lemma Associate(a: seq<byte>, b: seq<byte>, c: seq<byte>)
    ensures a + (b + c) == a + b + c
  {
  }

  lemma {:induction false} JoinThen(codes: seq<seq<byte>>, rest: seq<byte>)
    ensures Join(codes, rest) == Join(codes, []) + rest
    decreases |codes|
  {
    if codes == [] {
      assert [] + rest == rest;
    } else {
      JoinThen(codes[1..], rest);
      Associate(codes[0], Join(codes[1..], []), rest);
    }
  }

  lemma {:induction false} FlagsSnoc(pks: seq<bool>, b: bool, rest: seq<byte>)
    ensures FlagsThen(pks + [b], rest) == FlagsThen(pks, [if b then 1 else 0] + rest)
    decreases |pks|
  {
    if pks == [] {
      assert pks + [b] == [b] && [b][1..] == [];
    } else {
      assert (pks + [b])[0] == pks[0] && (pks + [b])[1..] == pks[1..] + [b];
      FlagsSnoc(pks[1..], b, rest);
    }
  }

  /** The name and its zero byte. */
  lemma {:induction false} ZeroEndedIs(name: Name)
    ensures ZeroEnded(name) == name + [0]
  {
    if name != [] {
      ZeroEndedIs(name[1..]);
      assert [name[0]] + (name[1..] + [0]) == name + [0];
    }
  }

  /** The rows a failed WriteEntry leaves behind: old values, if only the new ones are miscounted. */
  function PartialRows(e: Entry, n: nat): seq<byte>
    requires EntryFits64(e)
  {
    if e.op == Update && |e.oldValues| == n then Join(ValueCodes(e.oldValues), []) else []
  }

  lemma AfterHead(start: seq<byte>, op: byte, rows: seq<byte>)
    ensures start + [op] + [0] + rows == start + ([op, 0] + rows)
  {
  }

  class ChangesetWriter {
    var out: seq<byte>
    var currentTable: ChangesetTable
    const tmp: array<byte>

    ghost predicate Valid()
      reads this
    {
      tmp.Length == 9
    }

    constructor ()
      ensures out == [] && currentTable == NO_TABLE && Valid() && fresh(tmp)
    {
      out, currentTable, tmp := [], NO_TABLE, new byte[9](_ => 0);
    }

    method WriteVarint(n: nat)
      requires Valid()
      modifies this`out, tmp
      ensures out == old(out) + EncodeLength(n)
    {
      var nBytes := Varint.PutVarint64(tmp, n % POW32);
      out := out + tmp[..nBytes];
    }

    method WriteNullTerminatedString(s: Name)
      modifies this`out
      ensures out == old(out) + ZeroEnded(s)
    {
      ZeroEndedIs(s);
      out := out + s + [0];
    }

    method WriteUint64(x: nat)
      requires x < POW64
      modifies this`out
      ensures out == old(out) + BigEndian(x, WORD)
    {
      out := out + BigEndian(x, 8);
    }

    method WriteSized(typ: byte, s: seq<byte>)
      requires Valid()
      modifies this`out, tmp
      ensures out == old(out) + ([typ] + (EncodeLength(|s|) + s))
    {
      out := out + [typ];
      WriteVarint(|s|);
      out := out + s;
    }

    method WriteValue(v: Value)
      requires Valid() && Fits64(v)
      modifies this`out, tmp
      ensures out == old(out) + EncodeValue(v)
    {
      match v {
        case Int(n) =>
          out := out + [1];
          WriteUint64(ToBits(n));
        case Double(bits) =>
          out := out + [2];
          WriteUint64(bits);
        case Text(s) => WriteSized(3, s);
        case Blob(s) => WriteSized(4, s);
        case Null => out := out + [5];
        case Undefined => out := out + [0];
      }
    }

    /** Fails, writing nothing, when the values are not as many as the current table's columns. */
    method WriteRowValues(values: Row) returns (ok: bool)
      requires Valid() && RowFits64(values)
      modifies this`out, tmp
      ensures ok <==> |values| == currentTable.ColumnCount()
      ensures out == if ok then old(out) + Join(ValueCodes(values), []) else old(out)
    {
      if |values| != currentTable.ColumnCount() {
        return false;
      }
      ghost var start := out;
      for i := 0 to |values|
        invariant out == start + Join(ValueCodes(values)[..i], [])
      {
        ghost var codes := ValueCodes(values);
        assert codes[..i + 1] == codes[..i] + [codes[i]];
        JoinSnoc(codes[..i], codes[i]);
        Associate(start, Join(codes[..i], []), codes[i]);
        WriteValue(values[i]);
      }
      assert ValueCodes(values)[..|values|] == ValueCodes(values);
      ok := true;
    }

    method BeginTable(table: ChangesetTable)
      requires Valid()
      modifies this, tmp
      ensures currentTable == table && out == old(out) + EncodeHeader(table)
    {
      currentTable := table;
      out := out + [TABLE_RECORD];
      WriteVarint(table.ColumnCount());
      ghost var start := out;
      for i := 0 to table.ColumnCount()
        invariant currentTable == table
        invariant out == start + FlagsThen(table.primaryKeys[..i], [])
      {
        assert table.primaryKeys[..i + 1] == table.primaryKeys[..i] + [table.primaryKeys[i]];
        FlagSnocBytes(table.primaryKeys[..i], table.primaryKeys[i]);
        out := out + [if table.primaryKeys[i] then 1 else 0];
      }
      assert table.primaryKeys[..table.ColumnCount()] == table.primaryKeys;
      FlagsAppend(table.primaryKeys, ZeroEnded(table.name));
      WriteNullTerminatedString(table.name);
    }

    method WriteRows(entry: Entry) returns (ok: bool)
      requires Valid() && EntryFits64(entry)
      modifies this`out, tmp
      ensures ok <==> entry.(table := currentTable).WellShaped()
      ensures out == old(out) + if ok then EncodeRows(entry) else PartialRows(entry, currentTable.ColumnCount())
    {
      match entry.op {
        case Insert => ok := WriteRowValues(entry.newValues);
        case Delete => ok := WriteRowValues(entry.oldValues);
        case Update =>
          ok := WriteRowValues(entry.oldValues);
          if ok {
            ghost var oldCode, newCode := Join(ValueCodes(entry.oldValues), []), Join(ValueCodes(entry.newValues), []);
            JoinThen(ValueCodes(entry.oldValues), newCode);
            Associate(old(out), oldCode, newCode);
            ok := WriteRowValues(entry.newValues);
          }
      }
    }

    /** Fails when a row the operation uses does not have as many values as the current table has columns. */
    method WriteEntry(entry: Entry) returns (ok: bool)
      requires Valid() && EntryFits64(entry)
      modifies this`out, tmp
      ensures ok <==> entry.(table := currentTable).WellShaped()
      ensures out == old(out) + if ok then EncodeEntry(entry) else [OpByte(entry.op), 0] + PartialRows(entry, currentTable.ColumnCount())
    {
      out := out + [OpByte(entry.op)];
      out := out + [0];
      ok := WriteRows(entry);
      AfterHead(old(out), OpByte(entry.op), if ok then EncodeRows(entry) else PartialRows(entry, currentTable.ColumnCount()));
    }
  }

  lemma FlagSnocBytes(pks: seq<bool>, b: bool)
    ensures FlagsThen(pks + [b], []) == FlagsThen(pks, []) + [if b then 1 else 0]
  {
    FlagsSnoc(pks, b, []);
    FlagsAppend(pks, [if b then 1 else 0]);
    assert [if b then 1 else 0] + [] == [if b then 1 else 0];
  }

  lemma {:induction false} FlagsAppend(pks: seq<bool>, rest: seq<byte>)
    ensures FlagsThen(pks, rest) == FlagsThen(pks, []) + rest
    decreases |pks|
  {
    if pks == [] {
      assert [] + rest == rest;
    } else {
      FlagsAppend(pks[1..], rest);
      Associate([if pks[0] then 1 else 0], FlagsThen(pks[1..], []), rest);
    }
  }
}
