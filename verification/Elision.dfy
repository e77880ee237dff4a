/**
 Copying entries with a header only where the table name changes: ConcatChanges
 (geodiff/api.go) and InvertChangeset (changeset/utils.go).
 */
module Elision {
  import opened Values
  import opened Rows
  import opened Invert
  import opened Wire
  import opened Reader
  import opened Writer

  // ----- What is written and what is read back -----

  /** Headers where the name differs from that of the entry before; `last` is the name before the first. */
  function Elide(last: Name, es: seq<Entry>): seq<Record>
    decreases |es|
  {
    if es == [] then []
    else if es[0].table.name != last then [Header(es[0].table), Change(es[0])] + Elide(es[0].table.name, es[1..])
    else [Change(es[0])] + Elide(es[0].table.name, es[1..])
  }

  /** The table an entry is written under when t is the one before. */
  function TableFor(t: ChangesetTable, last: Name, e: Entry): ChangesetTable {
    if e.table.name != last then e.table else t
  }

  function LastName(last: Name, es: seq<Entry>): Name {
    if es == [] then last else es[|es| - 1].table.name
  }

  function TableAfter(t: ChangesetTable, last: Name, es: seq<Entry>): ChangesetTable
    decreases |es|
  {
    if es == [] then t else TableAfter(TableFor(t, last, es[0]), es[0].table.name, es[1..])
  }

  /** Every entry has as many values as the table it is written under has columns. */
  ghost predicate CountsAgree(t: ChangesetTable, last: Name, es: seq<Entry>)
    decreases |es|
  {
    es != [] ==>
      && es[0].(table := TableFor(t, last, es[0])).WellShaped()
      && CountsAgree(TableFor(t, last, es[0]), es[0].table.name, es[1..])
  }

  /** The entries under the tables they are written under. */
  ghost function Retable(t: ChangesetTable, last: Name, es: seq<Entry>): seq<Entry>
    decreases |es|
  {
    if es == [] then []
    else [es[0].(table := TableFor(t, last, es[0])).Written()] + Retable(TableFor(t, last, es[0]), es[0].table.name, es[1..])
  }

  /** An entry named like the one before it has the very table of the one before it. */
  ghost predicate Consistent(t: ChangesetTable, last: Name, es: seq<Entry>)
    decreases |es|
  {
    es != [] ==>
      && (es[0].table.name == last ==> es[0].table == t)
      && Consistent(es[0].table, es[0].table.name, es[1..])
  }

  ghost predicate AllWritable(es: seq<Entry>) {
    forall i | 0 <= i < |es| :: WritableEntry(es[i]) && WritableTable(es[i].table)
  }

  lemma {:induction false} ElideWritable(last: Name, es: seq<Entry>)
    requires AllWritable(es)
    ensures WritableAll(Elide(last, es))
    decreases |es|
  {
    if es != [] {
      ElideWritable(es[0].table.name, es[1..]);
    }
  }

  /** The bytes of a changeset copied with elided headers. */
  function Bytes(es: seq<Entry>): seq<byte>
    requires AllWritable(es)
  {
    ElideWritable([], es);
    EncodeAll(Elide([], es))
  }

  lemma HeadersOfOne(t: ChangesetTable, e: Entry, rest: seq<Record>)
    ensures FitsHeaders([Change(e)] + rest, t) <==> e.(table := t).WellShaped() && FitsHeaders(rest, t)
    ensures EntriesOf([Change(e)] + rest, t) == [e.(table := t).Written()] + EntriesOf(rest, t)
  {
    assert ([Change(e)] + rest)[1..] == rest;
  }

  lemma HeadersOfTwo(t: ChangesetTable, u: ChangesetTable, e: Entry, rest: seq<Record>)
    ensures FitsHeaders([Header(u), Change(e)] + rest, t) <==> FitsHeaders([Change(e)] + rest, u)
    ensures EntriesOf([Header(u), Change(e)] + rest, t) == EntriesOf([Change(e)] + rest, u)
  {
    assert ([Header(u), Change(e)] + rest)[1..] == [Change(e)] + rest;
  }

  lemma {:induction false} ElidedEntries(t: ChangesetTable, last: Name, es: seq<Entry>)
    ensures FitsHeaders(Elide(last, es), t) <==> CountsAgree(t, last, es)
    ensures EntriesOf(Elide(last, es), t) == Retable(t, last, es)
    decreases |es|
  {
    if es != [] {
      var e, u := es[0], TableFor(t, last, es[0]);
      var rest := Elide(e.table.name, es[1..]);
      ElidedEntries(u, e.table.name, es[1..]);
      HeadersOfOne(u, e, rest);
      if e.table.name != last {
        HeadersOfTwo(t, u, e, rest);
      }
    }
  }

  /** Nothing is lost but, possibly, the table an entry belongs to. */
  lemma ElidedReads(es: seq<Entry>)
    requires AllWritable(es) && CountsAgree(NO_TABLE, [], es)
    ensures Read(Bytes(es)) == Contents(Retable(NO_TABLE, [], es), true)
  {
    ElideWritable([], es);
    ElidedEntries(NO_TABLE, [], es);
    RoundTrip(Elide([], es));
  }

  ghost predicate AllWritten(es: seq<Entry>) {
    forall i | 0 <= i < |es| :: es[i].WellShaped() && es[i] == es[i].Written()
  }

  lemma {:induction false} RetableIff(t: ChangesetTable, last: Name, es: seq<Entry>)
    requires AllWritten(es)
    ensures Retable(t, last, es) == es <==> Consistent(t, last, es)
    ensures Consistent(t, last, es) ==> CountsAgree(t, last, es)
    decreases |es|
  {
    if es != [] {
      var e, u := es[0], TableFor(t, last, es[0]);
      var rest := Retable(u, e.table.name, es[1..]);
      RetableIff(u, e.table.name, es[1..]);
      assert es == [e] + es[1..];
      if Retable(t, last, es) == es {
        assert Retable(t, last, es)[0] == e && Retable(t, last, es)[1..] == rest;
        assert es[1..] == rest;
      }
    }
  }

  /**
   Reading what was copied gives the entries back with their tables exactly
   when entries that follow one another under one name have one header.
   */
  lemma ElisionSound(es: seq<Entry>)
    requires AllWritable(es) && AllWritten(es) && CountsAgree(NO_TABLE, [], es)
    ensures Read(Bytes(es)) == Contents(es, true) <==> Consistent(NO_TABLE, [], es)
  {
    ElidedReads(es);
    RetableIff(NO_TABLE, [], es);
  }

  /** It is enough that equal names mean equal headers and that no table is nameless. */
  lemma {:induction false} OneSchemaIsConsistent(s: Schema, t: ChangesetTable, last: Name, es: seq<Entry>)
    requires OverSchema(s, es) && (forall i | 0 <= i < |es| :: es[i].table.name != [])
    requires last != [] ==> last in s && s[last] == t
    ensures Consistent(t, last, es)
    decreases |es|
  {
    if es != [] {
      assert EntryOver(s, es[0]);
      OneSchemaIsConsistent(s, es[0].table, es[0].table.name, es[1..]);
    }
  }

  /** A copy of entries over one schema of named tables reads as the entries. */
  lemma OneSchemaReadsBack(s: Schema, es: seq<Entry>)
    requires OverSchema(s, es) && [] !in s && AllWritable(es) && AllWritten(es)
    ensures CountsAgree(NO_TABLE, [], es) && Read(Bytes(es)) == Contents(es, true)
  {
    OneSchemaIsConsistent(s, NO_TABLE, [], es);
    RetableIff(NO_TABLE, [], es);
    ElisionSound(es);
  }

  /** A nameless table never gets a header, so its entries end up in a table without columns. */
  lemma NamelessTableIsLost(e: Entry)
    requires e.WellShaped() && e.table.name == [] && e.table.ColumnCount() > 0
    ensures !CountsAgree(NO_TABLE, [], [e])
  {
    assert TableFor(NO_TABLE, [], e) == NO_TABLE;
  }

  // ----- Entry by entry -----

  lemma {:induction false} Snoc(t: ChangesetTable, last: Name, es: seq<Entry>, e: Entry)
    ensures var u, name := TableAfter(t, last, es), LastName(last, es);
            && Elide(last, es + [e]) == Elide(last, es) + Elide(name, [e])
            && TableAfter(t, last, es + [e]) == TableFor(u, name, e)
            && (CountsAgree(t, last, es + [e]) <==> CountsAgree(t, last, es) && e.(table := TableFor(u, name, e)).WellShaped())
    decreases |es|
  {
    assert [e][1..] == [];
    if es == [] {
      assert es + [e] == [e];
      assert Elide(last, es) + Elide(last, [e]) == Elide(last, [e]);
    } else {
      var head, u := es[0], TableFor(t, last, es[0]);
      assert (es + [e])[0] == head && (es + [e])[1..] == es[1..] + [e];
      Snoc(u, head.table.name, es[1..], e);
      assert LastName(last, es) == LastName(head.table.name, es[1..]);
      SnocElide(last, es, e);
    }
  }

  lemma SnocElide(last: Name, es: seq<Entry>, e: Entry)
    requires es != []
    requires Elide(es[0].table.name, es[1..] + [e]) == Elide(es[0].table.name, es[1..]) + Elide(LastName(last, es), [e])
    ensures Elide(last, es + [e]) == Elide(last, es) + Elide(LastName(last, es), [e])
  {
    var first := if es[0].table.name != last then [Header(es[0].table), Change(es[0])] else [Change(es[0])];
    assert (es + [e])[0] == es[0] && (es + [e])[1..] == es[1..] + [e];
    assert first + (Elide(es[0].table.name, es[1..]) + Elide(LastName(last, es), [e]))
        == first + Elide(es[0].table.name, es[1..]) + Elide(LastName(last, es), [e]);
  }

  lemma {:induction false} CountsOfPrefix(t: ChangesetTable, last: Name, es: seq<Entry>, fs: seq<Entry>)
    requires CountsAgree(t, last, es + fs)
    ensures CountsAgree(t, last, es)
    decreases |es|
  {
    if es != [] {
      assert (es + fs)[0] == es[0] && (es + fs)[1..] == es[1..] + fs;
      CountsOfPrefix(TableFor(t, last, es[0]), es[0].table.name, es[1..], fs);
    }
  }

  lemma JoinOne(code: seq<byte>)
    ensures Join([code], []) == code
  {
    var codes: seq<seq<byte>> := [code];
    assert codes[1..] == [] && Join(codes[1..], []) == [];
    assert code + [] == code;
  }

  lemma EncodeOne(r: Record)
    requires WritableRecord(r)
    ensures EncodeAll([r]) == EncodeRecord(r)
  {
    JoinOne(EncodeRecord(r));
    assert RecordCodes([r]) == [EncodeRecord(r)];
  }

  lemma EncodeTwo(r: Record, q: Record)
    requires WritableRecord(r) && WritableRecord(q)
    ensures EncodeAll([r, q]) == EncodeRecord(r) + EncodeRecord(q)
  {
    assert RecordCodes([r, q]) == [EncodeRecord(r), EncodeRecord(q)];
    JoinSnoc([EncodeRecord(r)], EncodeRecord(q));
    EncodeOne(r);
    assert RecordCodes([r]) == [EncodeRecord(r)];
    assert [EncodeRecord(r)] + [EncodeRecord(q)] == RecordCodes([r, q]);
  }

  lemma {:induction false} JoinConcat(a: seq<seq<byte>>, b: seq<seq<byte>>)
    ensures Join(a + b, []) == Join(a, []) + Join(b, [])
    decreases |a|
  {
    if a == [] {
      assert a + b == b && Join(a, []) + Join(b, []) == Join(b, []);
    } else {
      assert (a + b)[0] == a[0] && (a + b)[1..] == a[1..] + b;
      JoinConcat(a[1..], b);
      Associate(a[0], Join(a[1..], []), Join(b, []));
    }
  }

  lemma CodesConcat(a: seq<Record>, b: seq<Record>)
    requires WritableAll(a) && WritableAll(b)
    ensures WritableAll(a + b) && RecordCodes(a + b) == RecordCodes(a) + RecordCodes(b)
  {
    assert forall k | 0 <= k < |a + b| :: (a + b)[k] == if k < |a| then a[k] else b[k - |a|];
  }

  lemma EncodeConcat(a: seq<Record>, b: seq<Record>)
    requires WritableAll(a) && WritableAll(b)
    ensures WritableAll(a + b) && EncodeAll(a + b) == EncodeAll(a) + EncodeAll(b)
  {
    CodesConcat(a, b);
    JoinConcat(RecordCodes(a), RecordCodes(b));
  }

  /** What one more entry appends. */
  lemma BytesSnoc(es: seq<Entry>, e: Entry)
    requires AllWritable(es) && WritableEntry(e) && WritableTable(e.table)
    ensures AllWritable(es + [e])
    ensures Bytes(es + [e]) ==
            if e.table.name != LastName([], es) then Bytes(es) + EncodeHeader(e.table) + EncodeEntry(e) else Bytes(es) + EncodeEntry(e)
  {
    var name := LastName([], es);
    Snoc(NO_TABLE, [], es, e);
    ElideWritable([], es);
    assert [e][1..] == [] && Elide(e.table.name, []) == [];
    if e.table.name != name {
      assert Elide(name, [e]) == [Header(e.table), Change(e)];
      EncodeTwo(Header(e.table), Change(e));
      EncodeConcat(Elide([], es), [Header(e.table), Change(e)]);
      Associate(Bytes(es), EncodeHeader(e.table), EncodeEntry(e));
    } else {
      assert Elide(name, [e]) == [Change(e)];
      EncodeOne(Change(e));
      EncodeConcat(Elide([], es), [Change(e)]);
    }
  }

  // ----- The copying loops -----

  /** What a writer has written once it emitted `es`. */
  ghost predicate Wrote(w: ChangesetWriter, es: seq<Entry>)
    reads w
  {
    && AllWritable(es)
    && CountsAgree(NO_TABLE, [], es)
    && w.Valid()
    && w.out == Bytes(es)
    && w.currentTable == TableAfter(NO_TABLE, [], es)
  }

  lemma WritableFits64(e: Entry)
    requires WritableEntry(e)
    ensures EntryFits64(e)
  {
  }

  /** One entry, after a header if the name changed. */
  method Emit(w: ChangesetWriter, e: Entry, last: Name, ghost es: seq<Entry>) returns (ok: bool)
    requires Wrote(w, es) && last == LastName([], es) && WritableEntry(e) && WritableTable(e.table)
    modifies w, w.tmp
    ensures ok <==> CountsAgree(NO_TABLE, [], es + [e])
    ensures ok ==> Wrote(w, es + [e])
  {
    Snoc(NO_TABLE, [], es, e);
    BytesSnoc(es, e);
    WritableFits64(e);
    if e.table.name != last {
      w.BeginTable(e.table);
    }
    ok := w.WriteEntry(e);
  }

  /** The entries of all inputs, one input after the other, up to the first that cannot be read to its end. */
  ghost function Entries(inputs: seq<seq<byte>>): seq<Entry> {
    if inputs == [] then [] else Entries(inputs[..|inputs| - 1]) + Read(inputs[|inputs| - 1]).entries
  }

  ghost predicate AllComplete(inputs: seq<seq<byte>>) {
    forall k | 0 <= k < |inputs| :: Read(inputs[k]).complete
  }

  lemma {:induction false} EntriesPrefix(inputs: seq<seq<byte>>, k: nat) returns (rest: seq<Entry>)
    requires k < |inputs|
    ensures Entries(inputs) == Entries(inputs[..k]) + Read(inputs[k]).entries + rest
    decreases |inputs|
  {
    var init, n := inputs[..|inputs| - 1], |inputs| - 1;
    if k == n {
      rest := [];
    } else {
      assert init[..k] == inputs[..k];
      rest := EntriesPrefix(init, k);
      AssociateEntries(Entries(inputs[..k]) + Read(inputs[k]).entries, rest, Read(inputs[n]).entries);
      rest := rest + Read(inputs[n]).entries;
    }
  }

  lemma AssociateEntries(a: seq<Entry>, b: seq<Entry>, c: seq<Entry>)
    ensures a + b + c == a + (b + c)
  {
  }

  /** `written` and then `rest` make up all entries to copy. */
  ghost predicate Left(all: Contents, written: seq<Entry>, rest: Contents) {
    all.entries == written + rest.entries && all.complete == rest.complete
  }

  lemma LeftOne(all: Contents, written: seq<Entry>, e: Entry, rest: Contents)
    requires Left(all, written, Contents([e] + rest.entries, rest.complete))
    ensures Left(all, written + [e], rest)
    ensures CountsAgree(NO_TABLE, [], all.entries) ==> CountsAgree(NO_TABLE, [], written + [e])
  {
    AssociateEntries(written, [e], rest.entries);
    if CountsAgree(NO_TABLE, [], all.entries) {
      CountsOfPrefix(NO_TABLE, [], written + [e], rest.entries);
    }
  }

  lemma NothingLeft(all: Contents, written: seq<Entry>)
    requires Left(all, written, Contents([], all.complete))
    ensures all.entries == written
  {
    assert written + [] == written;
  }

  /** Appends the entries of one input; fails if it cannot be read to its end or an entry cannot be written. */
  method CopyAll(data: seq<byte>, w: ChangesetWriter, last0: Name, ghost es: seq<Entry>) returns (ok: bool, last: Name)
    requires Wrote(w, es) && last0 == LastName([], es)
    modifies w, w.tmp
    ensures ok <==> Read(data).complete && CountsAgree(NO_TABLE, [], es + Read(data).entries)
    ensures ok ==> Wrote(w, es + Read(data).entries) && last == LastName([], es + Read(data).entries)
  {
    var reader := new ChangesetReader(data);
    ghost var all := Contents(es + Read(data).entries, Read(data).complete);
    ghost var written := es;
    last := last0;
    while true
      invariant reader.Valid() && reader.buf == data && fresh(reader) && WritableTable(reader.currentTable)
      invariant Wrote(w, written) && last == LastName([], written)
      invariant Left(all, written, ReadAll(data, reader.offset, reader.currentTable))
      decreases |data| - reader.offset
    {
      var next := reader.NextEntry();
      match next {
        case Malformed => return false, last;
        case EndOfFile =>
          NothingLeft(all, written);
          return true, last;
        case Found(e) =>
          LeftOne(all, written, e, ReadAll(data, reader.offset, reader.currentTable));
          ok := Emit(w, e, last, written);
          if !ok {
            return false, last;
          }
          written := written + [e];
          last := e.table.name;
      }
    }
  }

  lemma NextInput(inputs: seq<seq<byte>>, k: nat)
    requires k < |inputs|
    ensures Entries(inputs[..k + 1]) == Entries(inputs[..k]) + Read(inputs[k]).entries
    ensures AllComplete(inputs[..k]) && Read(inputs[k]).complete ==> AllComplete(inputs[..k + 1])
    ensures AllComplete(inputs) ==> Read(inputs[k]).complete
  {
    NextEntries(inputs, k);
    NextComplete(inputs, k);
  }

  lemma NextComplete(inputs: seq<seq<byte>>, k: nat)
    requires k < |inputs|
    ensures AllComplete(inputs[..k]) && Read(inputs[k]).complete ==> AllComplete(inputs[..k + 1])
  {
    var more := inputs[..k + 1];
    assert |more| == k + 1 && more[k] == inputs[k] && forall j | 0 <= j < k :: more[j] == inputs[..k][j];
  }

  lemma NextEntries(inputs: seq<seq<byte>>, k: nat)
    requires k < |inputs|
    ensures Entries(inputs[..k + 1]) == Entries(inputs[..k]) + Read(inputs[k]).entries
  {
    var more := inputs[..k + 1];
    assert more != [] && more[..|more| - 1] == inputs[..k] && more[|more| - 1] == inputs[k];
  }

  /**
   ConcatChanges: the entries of the inputs, in order, with headers where the
   table name changes. One input is refused.
   */
  method ConcatChanges(inputs: seq<seq<byte>>) returns (r: Option<seq<byte>>)
    ensures r.Some? <==> |inputs| >= 2 && AllComplete(inputs) && CountsAgree(NO_TABLE, [], Entries(inputs))
    ensures r.Some? ==> AllWritable(Entries(inputs)) && r.value == Bytes(Entries(inputs))
  {
    if |inputs| < 2 {
      return None;
    }
    var w := new ChangesetWriter();
    var last := [];
    for k := 0 to |inputs|
      invariant fresh(w) && fresh(w.tmp)
      invariant AllComplete(inputs[..k])
      invariant Wrote(w, Entries(inputs[..k])) && last == LastName([], Entries(inputs[..k]))
    {
      NextInput(inputs, k);
      var ok;
      ok, last := CopyAll(inputs[k], w, last, Entries(inputs[..k]));
      if !ok {
        InputFails(inputs, k);
        return None;
      }
    }
    assert inputs[..|inputs|] == inputs;
    r := Some(w.out);
  }

  lemma InputFails(inputs: seq<seq<byte>>, k: nat)
    requires k < |inputs|
    ensures CountsAgree(NO_TABLE, [], Entries(inputs)) ==> CountsAgree(NO_TABLE, [], Entries(inputs[..k]) + Read(inputs[k]).entries)
  {
    var rest := EntriesPrefix(inputs, k);
    if CountsAgree(NO_TABLE, [], Entries(inputs)) {
      CountsOfPrefix(NO_TABLE, [], Entries(inputs[..k]) + Read(inputs[k]).entries, rest);
    }
  }

  lemma {:induction false} EntriesAreRead(inputs: seq<seq<byte>>)
    ensures AllWritten(Entries(inputs)) && AllWritable(Entries(inputs))
    decreases |inputs|
  {
    if inputs != [] {
      var n := |inputs| - 1;
      EntriesAreRead(inputs[..n]);
      ReadIsWritten(inputs[n], 0, NO_TABLE);
      ReadIsWritable(inputs[n], 0, NO_TABLE);
    }
  }

  /**
   Inputs in which a table name has one header and no table is nameless: their
   concatenation can be written, and reads as their entries, tables included.
   */
  lemma ConcatReadsBack(s: Schema, inputs: seq<seq<byte>>)
    requires OverSchema(s, Entries(inputs)) && [] !in s
    ensures CountsAgree(NO_TABLE, [], Entries(inputs))
    ensures AllWritable(Entries(inputs)) && Read(Bytes(Entries(inputs))) == Contents(Entries(inputs), true)
  {
    EntriesAreRead(inputs);
    OneSchemaReadsBack(s, Entries(inputs));
  }

  // ----- Inverting a file -----

  /** `written` and then the inverse of `rest` make up the inverse of all entries. */
  ghost predicate InverseLeft(all: Contents, written: seq<Entry>, rest: Contents) {
    && Shaped(all.entries) && Shaped(rest.entries)
    && Left(Contents(InverseAll(all.entries), all.complete), written, Contents(InverseAll(rest.entries), rest.complete))
  }

  lemma InverseAllFirst(e: Entry, rest: seq<Entry>)
    requires e.WellShaped() && Shaped(rest)
    ensures Shaped([e] + rest) && InverseAll([e] + rest) == [Inverse(e)] + InverseAll(rest)
  {
  }

  lemma InverseWritable(e: Entry)
    requires e.WellShaped() && WritableEntry(e)
    ensures WritableEntry(Inverse(e))
  {
  }

  /** Once read, the next entry's inverse is next to be written. */
  lemma InverseLeftOne(all: Contents, written: seq<Entry>, e: Entry, rest: Contents)
    requires e.WellShaped() && Shaped(rest.entries)
    requires InverseLeft(all, written, Contents([e] + rest.entries, rest.complete))
    ensures InverseLeft(all, written + [Inverse(e)], rest)
    ensures CountsAgree(NO_TABLE, [], InverseAll(all.entries)) ==> CountsAgree(NO_TABLE, [], written + [Inverse(e)])
  {
    InverseAllFirst(e, rest.entries);
    LeftOne(Contents(InverseAll(all.entries), all.complete), written, Inverse(e), Contents(InverseAll(rest.entries), rest.complete));
  }

  lemma InverseNothingLeft(all: Contents, written: seq<Entry>)
    requires InverseLeft(all, written, Contents([], all.complete))
    ensures InverseAll(all.entries) == written
  {
    assert InverseAll([]) == [];
    NothingLeft(Contents(InverseAll(all.entries), all.complete), written);
  }

  /** What a file reads as is well shaped. */
  lemma {:induction false} ReadIsWritten(buf: seq<byte>, i: nat, t: ChangesetTable)
    requires i <= |buf|
    ensures AllWritten(ReadAll(buf, i, t).entries) && Shaped(ReadAll(buf, i, t).entries)
    decreases |buf| - i
  {
    var s := Next(buf, i, t);
    if s.result.Found? {
      ReadIsWritten(buf, s.offset, s.table);
    }
  }

  method EmitInverse(w: ChangesetWriter, e: Entry, last: Name, ghost written: seq<Entry>, ghost all: Contents, ghost rest: Contents)
    returns (ok: bool)
    requires Wrote(w, written) && last == LastName([], written)
    requires e.WellShaped() && WritableEntry(e) && WritableTable(e.table) && Shaped(rest.entries)
    requires InverseLeft(all, written, Contents([e] + rest.entries, rest.complete))
    modifies w, w.tmp
    ensures Shaped(all.entries) && (!ok ==> !CountsAgree(NO_TABLE, [], InverseAll(all.entries)))
    ensures ok ==> Wrote(w, written + [Inverse(e)]) && InverseLeft(all, written + [Inverse(e)], rest)
  {
    InverseLeftOne(all, written, e, rest);
    var inverse := InvertEntry(e);
    InverseWritable(e);
    ok := Emit(w, inverse, last, written);
  }

  /** InvertChangeset: the inverted entries, in the same order, with headers where the table name changes. */
  method InvertChangeset(data: seq<byte>) returns (r: Option<seq<byte>>)
    ensures Shaped(Read(data).entries)
    ensures r.Some? <==> Read(data).complete && CountsAgree(NO_TABLE, [], InverseAll(Read(data).entries))
    ensures r.Some? ==> AllWritable(InverseAll(Read(data).entries)) && r.value == Bytes(InverseAll(Read(data).entries))
  {
    var reader := new ChangesetReader(data);
    var w := new ChangesetWriter();
    ghost var all, written := Read(data), [];
    var currentTableName := [];
    ReadIsWritten(data, 0, NO_TABLE);
    assert [] + InverseAll(all.entries) == InverseAll(all.entries);
    while true
      invariant fresh(reader) && fresh(w) && fresh(w.tmp)
      invariant reader.Valid() && reader.buf == data && WritableTable(reader.currentTable)
      invariant Wrote(w, written) && currentTableName == LastName([], written)
      invariant InverseLeft(all, written, ReadAll(data, reader.offset, reader.currentTable))
      decreases |data| - reader.offset
    {
      var next := reader.NextEntry();
      match next {
        case Malformed => return None;
        case EndOfFile =>
          InverseNothingLeft(all, written);
          return Some(w.out);
        case Found(e) =>
          ReadIsWritten(data, reader.offset, reader.currentTable);
          var ok := EmitInverse(w, e, currentTableName, written, all, ReadAll(data, reader.offset, reader.currentTable));
          if !ok {
            return None;
          }
          written := written + [Inverse(e)];
          currentTableName := e.table.name;
      }
    }
  }

  // ----- Inverting twice -----

  lemma InverseIsWritten(es: seq<Entry>)
    requires AllWritten(es) && AllWritable(es)
    ensures Shaped(es) && AllWritten(InverseAll(es)) && AllWritable(InverseAll(es))
  {
    forall i | 0 <= i < |es| ensures WritableEntry(InverseAll(es)[i]) {
      InverseWritable(es[i]);
    }
  }

  lemma {:induction false} InverseConsistent(t: ChangesetTable, last: Name, es: seq<Entry>)
    requires Shaped(es) && Consistent(t, last, es)
    ensures Consistent(t, last, InverseAll(es))
    decreases |es|
  {
    if es != [] {
      InverseConsistent(es[0].table, es[0].table.name, es[1..]);
      assert InverseAll(es)[1..] == InverseAll(es[1..]);
    }
  }

  /** A file with a header exactly where the table name changes, and the entries it was written from. */
  ghost predicate IsElided(file: seq<byte>, es: seq<Entry>) {
    AllWritable(es) && AllWritten(es) && Consistent(NO_TABLE, [], es) && file == Bytes(es)
  }

  lemma ElidedFileReads(file: seq<byte>, es: seq<Entry>)
    requires IsElided(file, es)
    ensures CountsAgree(NO_TABLE, [], es) && Read(file) == Contents(es, true)
  {
    RetableIff(NO_TABLE, [], es);
    ElisionSound(es);
  }

  lemma InverseFile(file: seq<byte>, es: seq<Entry>)
    requires IsElided(file, es)
    ensures Shaped(es) && AllWritable(InverseAll(es)) && IsElided(Bytes(InverseAll(es)), InverseAll(es))
  {
    InverseIsWritten(es);
    InverseConsistent(NO_TABLE, [], es);
  }

  /** Undoing the inversion entry by entry. */
  lemma InverseTwiceAll(es: seq<Entry>)
    requires AllWritten(es)
    ensures Shaped(es)
    ensures InverseAll(InverseAll(es)) == es <==> forall i | 0 <= i < |es| :: KeyInOld(es[i])
  {
    var twice := InverseAll(InverseAll(es));
    forall i | 0 <= i < |es| ensures twice[i] == es[i] <==> KeyInOld(es[i]) {
      InverseTwice(es[i]);
    }
  }

  /**
   A file with headers exactly at name changes can be inverted, and inverting
   it twice gives the same bytes exactly when no UPDATE carries a key value on
   its new side only.
   */
  lemma InvertingTwice(file: seq<byte>, es: seq<Entry>) returns (inverse: seq<byte>, again: seq<byte>)
    requires IsElided(file, es)
    ensures Shaped(es) && IsElided(inverse, InverseAll(es)) && IsElided(again, InverseAll(InverseAll(es)))
    ensures again == file <==> forall i | 0 <= i < |es| :: KeyInOld(es[i])
  {
    InverseFile(file, es);
    inverse := Bytes(InverseAll(es));
    InverseFile(inverse, InverseAll(es));
    again := Bytes(InverseAll(InverseAll(es)));
    InverseTwiceAll(es);
    ElidedFileReads(file, es);
    ElidedFileReads(again, InverseAll(InverseAll(es)));
  }

  /** Such a file stays invertible: InvertChangeset succeeds on it, with the inverse file. */
  lemma ElidedFileInverts(file: seq<byte>, es: seq<Entry>)
    requires IsElided(file, es)
    ensures Read(file) == Contents(es, true) && Shaped(es) && CountsAgree(NO_TABLE, [], InverseAll(es))
  {
    ElidedFileReads(file, es);
    InverseFile(file, es);
    ElidedFileReads(Bytes(InverseAll(es)), InverseAll(es));
  }

  /** InvertChangeset run on its own output. */
  method InvertAndBack(file: seq<byte>, ghost es: seq<Entry>) returns (inverse: seq<byte>, again: seq<byte>)
    requires IsElided(file, es)
    ensures again == file <==> forall i | 0 <= i < |es| :: es[i].WellShaped() && KeyInOld(es[i])
    ensures Shaped(es) && IsElided(inverse, InverseAll(es))
  {
    ElidedFileInverts(file, es);
    var first := InvertChangeset(file);
    InverseFile(file, es);
    ElidedFileInverts(first.value, InverseAll(es));
    var second := InvertChangeset(first.value);
    inverse, again := first.value, second.value;
    ghost var i, a := InvertingTwice(file, es);
  }
}
