/**
 The changeset format byte by byte, with its numbers written out: where each
 part of a record stands and what it looks like. What the writer writes has
 this layout, nothing else has the writer's bytes, and the reader reads it.
 */
module WireLayout {
  import opened Values
  import opened Wire
  import Varint

  // ----- The layout -----

  /** An unsigned 32-bit number: 7 bits a byte, most significant first, high bit on all but the last. */
  function NumberBytes(n: nat): seq<byte>
    requires n < POW32
  {
    if n < 0x80 then [n]
    else if n < 0x4000 then [n / 0x80 + 128, n % 128]
    else if n < 0x20_0000 then [n / 0x4000 + 128, n / 0x80 % 128 + 128, n % 128]
    else if n < 0x1000_0000 then [n / 0x20_0000 + 128, n / 0x4000 % 128 + 128, n / 0x80 % 128 + 128, n % 128]
    else [n / 0x1000_0000 + 128, n / 0x20_0000 % 128 + 128, n / 0x4000 % 128 + 128, n / 0x80 % 128 + 128, n % 128]
  }

  /** Four bytes as a number, high byte first. */
  function Quad(b3: byte, b2: byte, b1: byte, b0: byte): nat {
    (b3 as nat) * 0x100_0000 + (b2 as nat) * 0x1_0000 + (b1 as nat) * 0x100 + (b0 as nat)
  }

  /** Eight bytes, high byte first. */
  function WordAt(buf: seq<byte>, i: nat): nat
    requires i + 8 <= |buf|
  {
    Quad(buf[i], buf[i + 1], buf[i + 2], buf[i + 3]) * POW32 + Quad(buf[i + 4], buf[i + 5], buf[i + 6], buf[i + 7])
  }

  /** Bytes s from i up to j. */
  ghost predicate BytesAt(buf: seq<byte>, i: nat, s: seq<byte>, j: nat) {
    j == i + |s| <= |buf| && forall k | 0 <= k < |s| :: buf[i + k] == s[k]
  }

  /** A length and as many bytes. */
  ghost predicate SizedAt(buf: seq<byte>, i: nat, s: seq<byte>, j: nat) {
    |s| < POW32 && exists k: nat :: BytesAt(buf, i, NumberBytes(|s|), k) && BytesAt(buf, k, s, j)
  }

  /** A value: its type, then an integer in two's complement, the bits of a double, or sized bytes. */
  ghost predicate ValueAt(buf: seq<byte>, i: nat, v: Value, j: nat) {
    && i < |buf|
    && match v
       case Undefined => buf[i] == 0 && j == i + 1
       case Int(n) => buf[i] == 1 && j == i + 9 <= |buf| && WordAt(buf, i + 1) == if n < 0 then n + 0x1_0000_0000_0000_0000 else n
       case Double(bits) => buf[i] == 2 && j == i + 9 <= |buf| && WordAt(buf, i + 1) == bits
       case Text(s) => buf[i] == 3 && SizedAt(buf, i + 1, s, j)
       case Blob(s) => buf[i] == 4 && SizedAt(buf, i + 1, s, j)
       case Null => buf[i] == 5 && j == i + 1
  }

  /** Values one behind the other. */
  ghost predicate RowAt(buf: seq<byte>, i: nat, vals: Row, j: nat)
    decreases |vals|
  {
    if vals == [] then i == j <= |buf|
    else exists k: nat :: ValueAt(buf, i, vals[0], k) && RowAt(buf, k, vals[1..], j)
  }

  /** An entry: 18 for an INSERT, 23 for an UPDATE, 9 for a DELETE; a zero byte; the old values, then the new ones, that the operation has. */
  ghost predicate EntryAt(buf: seq<byte>, i: nat, e: Entry, j: nat) {
    && i + 2 <= |buf|
    && buf[i] == (match e.op case Insert => 18 case Update => 23 case Delete => 9)
    && buf[i + 1] == 0
    && RowsAt(buf, i + 2, e, j)
  }

  ghost predicate RowsAt(buf: seq<byte>, i: nat, e: Entry, j: nat) {
    match e.op
    case Insert => RowAt(buf, i, e.newValues, j)
    case Update => TwoRowsAt(buf, i, e.oldValues, e.newValues, j)
    case Delete => RowAt(buf, i, e.oldValues, j)
  }

  ghost predicate TwoRowsAt(buf: seq<byte>, i: nat, vals: Row, vals': Row, j: nat) {
    exists k: nat :: RowAt(buf, i, vals, k) && RowAt(buf, k, vals', j)
  }

  /** A header: 'T', the number of columns, a flag for each, the name, a zero byte. */
  ghost predicate HeaderAt(buf: seq<byte>, i: nat, t: ChangesetTable, j: nat) {
    && i < |buf| && buf[i] == 84 && |t.primaryKeys| <= 65536
    && TableAt(buf, i + 1, t, j)
  }

  ghost predicate TableAt(buf: seq<byte>, i: nat, t: ChangesetTable, j: nat)
    requires |t.primaryKeys| <= 65536
  {
    exists k: nat :: BytesAt(buf, i, NumberBytes(|t.primaryKeys|), k) && ColumnsAt(buf, k, t, j)
  }

  ghost predicate ColumnsAt(buf: seq<byte>, i: nat, t: ChangesetTable, j: nat) {
    FlagsAt(buf, i, t.primaryKeys) && NameAt(buf, i + |t.primaryKeys|, t.name, j)
  }

  ghost predicate FlagsAt(buf: seq<byte>, i: nat, pks: seq<bool>) {
    i + |pks| <= |buf| && forall k | 0 <= k < |pks| :: buf[i + k] == if pks[k] then 1 else 0
  }

  ghost predicate NameAt(buf: seq<byte>, i: nat, name: Name, j: nat) {
    && j == i + |name| + 1 <= |buf|
    && (forall k | 0 <= k < |name| :: buf[i + k] == name[k])
    && buf[i + |name|] == 0
  }

  // ----- Numbers -----

  lemma Powers()
    ensures Varint.Pow128(0) == 1 && Varint.Pow128(1) == 0x80 && Varint.Pow128(2) == 0x4000
    ensures Varint.Pow128(3) == 0x20_0000 && Varint.Pow128(4) == 0x1000_0000 && Varint.Pow128(5) == 0x8_0000_0000
  {
    assert Varint.Pow128(2) == 128 * 128;
    assert Varint.Pow128(4) == 128 * Varint.Pow128(3);
  }

  lemma EncodeSizes(n: nat)
    requires n < POW32
    ensures |Varint.Encode(n)| == |NumberBytes(n)|
  {
    Powers();
    Varint.EncodeSize(n, 1);
    Varint.EncodeSize(n, 2);
    Varint.EncodeSize(n, 3);
    Varint.EncodeSize(n, 4);
    Varint.EncodeSize(n, 5);
  }

  lemma OneByte(n: nat)
    requires n < 0x80
    ensures Varint.Encode(n) == [n]
  {
    EncodeSizes(n);
    Powers();
    Varint.EncodeByte(n, 0);
  }

  lemma TwoBytes(n: nat)
    requires 0x80 <= n < 0x4000
    ensures Varint.Encode(n) == [n / 0x80 + 128, n % 128]
  {
    EncodeSizes(n);
    Powers();
    Varint.EncodeByte(n, 0);
    Varint.EncodeByte(n, 1);
  }

  lemma ThreeBytes(n: nat)
    requires 0x4000 <= n < 0x20_0000
    ensures Varint.Encode(n) == [n / 0x4000 + 128, n / 0x80 % 128 + 128, n % 128]
  {
    EncodeSizes(n);
    Powers();
    Varint.EncodeByte(n, 0);
    Varint.EncodeByte(n, 1);
    Varint.EncodeByte(n, 2);
  }

  lemma FourBytes(n: nat)
    requires 0x20_0000 <= n < 0x1000_0000
    ensures Varint.Encode(n) == [n / 0x20_0000 + 128, n / 0x4000 % 128 + 128, n / 0x80 % 128 + 128, n % 128]
  {
    EncodeSizes(n);
    Powers();
    Varint.EncodeByte(n, 0);
    Varint.EncodeByte(n, 1);
    Varint.EncodeByte(n, 2);
    Varint.EncodeByte(n, 3);
  }

  lemma FiveBytes(n: nat)
    requires 0x1000_0000 <= n < POW32
    ensures Varint.Encode(n) == [n / 0x1000_0000 + 128, n / 0x20_0000 % 128 + 128, n / 0x4000 % 128 + 128, n / 0x80 % 128 + 128, n % 128]
  {
    EncodeSizes(n);
    Powers();
    Varint.EncodeByte(n, 0);
    Varint.EncodeByte(n, 1);
    Varint.EncodeByte(n, 2);
    Varint.EncodeByte(n, 3);
    Varint.EncodeByte(n, 4);
  }

  lemma LengthBytes(n: nat)
    requires n < POW32
    ensures EncodeLength(n) == NumberBytes(n)
  {
    assert n % POW32 == n;
    if n < 0x80 {
      OneByte(n);
    } else if n < 0x4000 {
      TwoBytes(n);
    } else if n < 0x20_0000 {
      ThreeBytes(n);
    } else if n < 0x1000_0000 {
      FourBytes(n);
    } else {
      FiveBytes(n);
    }
  }

  // ----- Bytes and words -----

  lemma BytesIff(buf: seq<byte>, i: nat, s: seq<byte>, j: nat)
    ensures BytesAt(buf, i, s, j) <==> At(buf, i, s) && j == i + |s|
  {
    if BytesAt(buf, i, s, j) {
      forall k | i <= k < i + |s| ensures buf[k] == s[k - i] {
        assert buf[i + (k - i)] == s[k - i];
      }
    }
  }

  /** One part behind another. */
  lemma AtBoth(buf: seq<byte>, i: nat, a: seq<byte>, b: seq<byte>)
    ensures At(buf, i, a + b) <==> At(buf, i, a) && At(buf, i + |a|, b)
  {
    if At(buf, i, a + b) {
      AtSplit(buf, i, a, b);
    }
    if At(buf, i, a) && At(buf, i + |a|, b) {
      forall k | i <= k < i + |a + b| ensures buf[k] == (a + b)[k - i] {
      }
    }
  }

  lemma AtOne(buf: seq<byte>, i: nat, b: byte)
    ensures At(buf, i, [b]) <==> i < |buf| && buf[i] == b
  {
    assert [b][0] == b;
  }

  lemma {:induction false} BigEndianOf(bs: seq<byte>)
    ensures BigEndian(FromBigEndian(bs), |bs|) == bs
    decreases |bs|
  {
    if bs != [] {
      var n := |bs| - 1;
      BigEndianOf(bs[..n]);
      assert FromBigEndian(bs) / 256 == FromBigEndian(bs[..n]) && FromBigEndian(bs) % 256 == bs[n];
      assert bs == bs[..n] + [bs[n]];
    }
  }

  lemma NextDigit(bs: seq<byte>, n: nat)
    requires n < |bs|
    ensures FromBigEndian(bs[..n + 1]) == FromBigEndian(bs[..n]) * 256 + bs[n]
  {
    assert bs[..n + 1][..n] == bs[..n];
  }

  lemma WordIsBigEndian(buf: seq<byte>, i: nat)
    requires i + 8 <= |buf|
    ensures FromBigEndian(buf[i..i + 8]) == WordAt(buf, i)
  {
    var bs := buf[i..i + 8];
    assert bs[..0] == [] && bs[..8] == bs;
    NextDigit(bs, 0);
    NextDigit(bs, 1);
    NextDigit(bs, 2);
    NextDigit(bs, 3);
    NextDigit(bs, 4);
    NextDigit(bs, 5);
    NextDigit(bs, 6);
    NextDigit(bs, 7);
  }

  lemma WordIff(buf: seq<byte>, i: nat, x: nat)
    requires x < POW64
    ensures At(buf, i, BigEndian(x, WORD)) <==> i + 8 <= |buf| && WordAt(buf, i) == x
  {
    if i + 8 <= |buf| {
      WordIsBigEndian(buf, i);
      BigEndianOf(buf[i..i + 8]);
      EightBytes();
      BigEndianBack(x, WORD);
      if At(buf, i, BigEndian(x, WORD)) {
        AtSlice(buf, i, BigEndian(x, WORD));
      }
    }
  }

  // ----- Values and rows -----

  lemma LengthIff(buf: seq<byte>, i: nat, n: nat)
    requires n < POW32
    ensures forall k: nat :: BytesAt(buf, i, NumberBytes(n), k) <==> At(buf, i, EncodeLength(n)) && k == i + |EncodeLength(n)|
  {
    LengthBytes(n);
    forall k: nat ensures BytesAt(buf, i, NumberBytes(n), k) <==> At(buf, i, EncodeLength(n)) && k == i + |EncodeLength(n)| {
      BytesIff(buf, i, NumberBytes(n), k);
    }
  }

  lemma SizedIff(buf: seq<byte>, i: nat, s: seq<byte>, j: nat)
    requires |s| < POW32
    ensures SizedAt(buf, i, s, j) <==> At(buf, i, EncodeLength(|s|) + s) && j == i + |EncodeLength(|s|)| + |s|
  {
    var n := i + |EncodeLength(|s|)|;
    AtBoth(buf, i, EncodeLength(|s|), s);
    LengthIff(buf, i, |s|);
    BytesIff(buf, n, s, j);
  }

  lemma TaggedWordIff(buf: seq<byte>, i: nat, typ: byte, x: nat)
    requires x < POW64
    ensures At(buf, i, [typ] + BigEndian(x, WORD)) <==> i + 9 <= |buf| && buf[i] == typ && WordAt(buf, i + 1) == x
  {
    AtBoth(buf, i, [typ], BigEndian(x, WORD));
    AtOne(buf, i, typ);
    WordIff(buf, i + 1, x);
  }

  lemma TaggedSizedIff(buf: seq<byte>, i: nat, typ: byte, s: seq<byte>, j: nat)
    requires |s| < POW32
    ensures At(buf, i, [typ] + (EncodeLength(|s|) + s)) && j == i + 1 + |EncodeLength(|s|)| + |s|
            <==> i < |buf| && buf[i] == typ && SizedAt(buf, i + 1, s, j)
  {
    AtBoth(buf, i, [typ], EncodeLength(|s|) + s);
    AtOne(buf, i, typ);
    SizedIff(buf, i + 1, s, j);
  }

  /** A value stands somewhere exactly when its code does. */
  lemma ValueIff(buf: seq<byte>, i: nat, v: Value, j: nat)
    requires Writable(v)
    ensures ValueAt(buf, i, v, j) <==> At(buf, i, EncodeValue(v)) && j == i + |EncodeValue(v)|
  {
    match v
    case Undefined => AtOne(buf, i, 0);
    case Null => AtOne(buf, i, 5);
    case Int(n) => TaggedWordIff(buf, i, 1, ToBits(n));
    case Double(bits) => TaggedWordIff(buf, i, 2, bits);
    case Text(s) => TaggedSizedIff(buf, i, 3, s, j);
    case Blob(s) => TaggedSizedIff(buf, i, 4, s, j);
  }

  /** Value v stands exactly where `code` does. */
  ghost predicate Lays(buf: seq<byte>, v: Value, code: seq<byte>) {
    forall i: nat, j: nat :: ValueAt(buf, i, v, j) <==> At(buf, i, code) && j == i + |code|
  }

  ghost predicate AllLaid(buf: seq<byte>, vals: Row, codes: seq<seq<byte>>) {
    |codes| == |vals| && forall k | 0 <= k < |vals| :: Lays(buf, vals[k], codes[k])
  }

  lemma ValuesLaid(buf: seq<byte>, vals: Row)
    requires WritableRow(vals)
    ensures AllLaid(buf, vals, ValueCodes(vals))
  {
    forall k | 0 <= k < |vals| ensures Lays(buf, vals[k], ValueCodes(vals)[k]) {
      ValueLaid(buf, vals[k]);
    }
  }

  lemma ValueLaid(buf: seq<byte>, v: Value)
    requires Writable(v)
    ensures Lays(buf, v, EncodeValue(v))
  {
    forall i: nat, j: nat ensures ValueAt(buf, i, v, j) <==> At(buf, i, EncodeValue(v)) && j == i + |EncodeValue(v)| {
      ValueIff(buf, i, v, j);
    }
  }

  ghost predicate RowThen(buf: seq<byte>, i: nat, vals: Row, rest: seq<byte>) {
    exists j: nat :: RowAt(buf, i, vals, j) && At(buf, j, rest)
  }

  ghost predicate CodesAt(buf: seq<byte>, i: nat, codes: seq<seq<byte>>, rest: seq<byte>) {
    At(buf, i, Join(codes, rest))
  }

  /** A row stands before `rest` exactly when its codes do. */
  lemma {:induction false} RowIff(buf: seq<byte>, i: nat, vals: Row, codes: seq<seq<byte>>, rest: seq<byte>)
    requires AllLaid(buf, vals, codes)
    ensures CodesAt(buf, i, codes, rest) <==> RowThen(buf, i, vals, rest)
    decreases |vals|
  {
    if vals == [] {
      EmptyThen(buf, i, vals, rest);
    } else {
      TailLaid(buf, vals, codes);
      RowIff(buf, i + |codes[0]|, vals[1..], codes[1..], rest);
      RowStepIff(buf, i, vals, codes, rest);
    }
  }

  lemma RowStepIff(buf: seq<byte>, i: nat, vals: Row, codes: seq<seq<byte>>, rest: seq<byte>)
    requires vals != [] && codes != [] && Lays(buf, vals[0], codes[0])
    requires CodesAt(buf, i + |codes[0]|, codes[1..], rest) <==> RowThen(buf, i + |codes[0]|, vals[1..], rest)
    ensures CodesAt(buf, i, codes, rest) <==> RowThen(buf, i, vals, rest)
  {
    JoinFirst(buf, i, codes, rest);
    FirstThenRow(buf, i, vals, codes[0], rest);
  }

  lemma JoinFirst(buf: seq<byte>, i: nat, codes: seq<seq<byte>>, rest: seq<byte>)
    requires codes != []
    ensures CodesAt(buf, i, codes, rest) <==> At(buf, i, codes[0]) && CodesAt(buf, i + |codes[0]|, codes[1..], rest)
    ensures |Join(codes, rest)| == |codes[0]| + |Join(codes[1..], rest)|
  {
    AtBoth(buf, i, codes[0], Join(codes[1..], rest));
  }

  lemma TailLaid(buf: seq<byte>, vals: Row, codes: seq<seq<byte>>)
    requires vals != [] && AllLaid(buf, vals, codes)
    ensures Lays(buf, vals[0], codes[0]) && AllLaid(buf, vals[1..], codes[1..])
  {
  }

  lemma EmptyThen(buf: seq<byte>, i: nat, vals: Row, rest: seq<byte>)
    requires vals == []
    ensures RowThen(buf, i, vals, rest) <==> At(buf, i, rest)
  {
    if At(buf, i, rest) {
      assert RowAt(buf, i, vals, i);
    }
  }

  lemma FirstThenRow(buf: seq<byte>, i: nat, vals: Row, code: seq<byte>, rest: seq<byte>)
    requires vals != [] && Lays(buf, vals[0], code)
    ensures RowThen(buf, i, vals, rest) <==> At(buf, i, code) && RowThen(buf, i + |code|, vals[1..], rest)
  {
    var n := i + |code|;
    if At(buf, i, code) && RowThen(buf, n, vals[1..], rest) {
      var j: nat :| RowAt(buf, n, vals[1..], j) && At(buf, j, rest);
      assert ValueAt(buf, i, vals[0], n);
      assert RowAt(buf, i, vals, j);
    }
  }

  // ----- Entries and headers -----

  lemma {:induction false} RowEnds(buf: seq<byte>, i: nat, vals: Row, codes: seq<seq<byte>>, j: nat)
    requires AllLaid(buf, vals, codes) && RowAt(buf, i, vals, j)
    ensures j == i + |Join(codes, [])| <= |buf|
    decreases |vals|
  {
    if vals != [] {
      var k: nat :| ValueAt(buf, i, vals[0], k) && RowAt(buf, k, vals[1..], j);
      TailLaid(buf, vals, codes);
      RowEnds(buf, k, vals[1..], codes[1..], j);
    }
  }

  lemma OneRowIff(buf: seq<byte>, i: nat, vals: Row, codes: seq<seq<byte>>, j: nat)
    requires AllLaid(buf, vals, codes)
    ensures RowAt(buf, i, vals, j) <==> At(buf, i, Join(codes, [])) && j == i + |Join(codes, [])|
  {
    RowIff(buf, i, vals, codes, []);
    if RowAt(buf, i, vals, j) {
      RowEnds(buf, i, vals, codes, j);
      assert At(buf, j, []);
    }
    if At(buf, i, Join(codes, [])) {
      var k: nat :| RowAt(buf, i, vals, k) && At(buf, k, []);
      RowEnds(buf, i, vals, codes, k);
    }
  }

  lemma {:induction false} JoinLength(codes: seq<seq<byte>>, rest: seq<byte>)
    ensures |Join(codes, rest)| == |Join(codes, [])| + |rest|
    decreases |codes|
  {
    if codes != [] {
      JoinLength(codes[1..], rest);
    }
  }

  lemma TwoRowsIff(buf: seq<byte>, i: nat, vals: Row, codes: seq<seq<byte>>, vals': Row, codes': seq<seq<byte>>, j: nat)
    requires AllLaid(buf, vals, codes) && AllLaid(buf, vals', codes')
    ensures TwoRowsAt(buf, i, vals, vals', j) <==>
              At(buf, i, Join(codes, Join(codes', []))) && j == i + |Join(codes, Join(codes', []))|
  {
    var rest := Join(codes', []);
    JoinLength(codes, rest);
    RowIff(buf, i, vals, codes, rest);
    if TwoRowsAt(buf, i, vals, vals', j) {
      var k: nat :| RowAt(buf, i, vals, k) && RowAt(buf, k, vals', j);
      OneRowIff(buf, i, vals, codes, k);
      OneRowIff(buf, k, vals', codes', j);
      assert RowThen(buf, i, vals, rest);
    }
    if At(buf, i, Join(codes, rest)) && j == i + |Join(codes, rest)| {
      var k: nat :| RowAt(buf, i, vals, k) && At(buf, k, rest);
      OneRowIff(buf, i, vals, codes, k);
      OneRowIff(buf, k, vals', codes', j);
    }
  }

  lemma RowsIff(buf: seq<byte>, i: nat, e: Entry, j: nat)
    requires WritableEntry(e)
    ensures RowsAt(buf, i, e, j) <==> At(buf, i, EncodeRows(e)) && j == i + |EncodeRows(e)|
  {
    if e.op != Insert {
      ValuesLaid(buf, e.oldValues);
    }
    if e.op != Delete {
      ValuesLaid(buf, e.newValues);
    }
    match e.op
    case Insert => OneRowIff(buf, i, e.newValues, ValueCodes(e.newValues), j);
    case Delete => OneRowIff(buf, i, e.oldValues, ValueCodes(e.oldValues), j);
    case Update => TwoRowsIff(buf, i, e.oldValues, ValueCodes(e.oldValues), e.newValues, ValueCodes(e.newValues), j);
  }

  /** An entry stands somewhere exactly when the bytes the writer writes for it do. */
  lemma EntryIff(buf: seq<byte>, i: nat, e: Entry, j: nat)
    requires WritableEntry(e)
    ensures EntryAt(buf, i, e, j) <==> At(buf, i, EncodeEntry(e)) && j == i + |EncodeEntry(e)|
  {
    var head := [OpByte(e.op), 0];
    AtBoth(buf, i, head, EncodeRows(e));
    TwoAt(buf, i, OpByte(e.op), 0);
    RowsIff(buf, i + 2, e, j);
  }

  lemma TwoAt(buf: seq<byte>, i: nat, a: byte, b: byte)
    ensures At(buf, i, [a, b]) <==> i + 2 <= |buf| && buf[i] == a && buf[i + 1] == b
  {
    if At(buf, i, [a, b]) {
      AtTwo(buf, i, a, b);
    }
  }

  function Marks(pks: seq<bool>): (r: seq<byte>)
    ensures |r| == |pks|
  {
    seq(|pks|, k requires 0 <= k < |pks| => if pks[k] then 1 else 0)
  }

  lemma {:induction false} FlagsAreMarks(pks: seq<bool>, rest: seq<byte>)
    ensures FlagsThen(pks, rest) == Marks(pks) + rest
    decreases |pks|
  {
    if pks != [] {
      FlagsAreMarks(pks[1..], rest);
      FirstMark(pks);
      assert [Marks(pks)[0]] + (Marks(pks[1..]) + rest) == ([Marks(pks)[0]] + Marks(pks[1..])) + rest;
    }
  }

  lemma FirstMark(pks: seq<bool>)
    requires pks != []
    ensures Marks(pks) == [if pks[0] then 1 else 0] + Marks(pks[1..])
  {
  }

  lemma FlagsIff(buf: seq<byte>, i: nat, pks: seq<bool>, rest: seq<byte>)
    ensures At(buf, i, FlagsThen(pks, rest)) <==> FlagsAt(buf, i, pks) && At(buf, i + |pks|, rest)
    ensures |FlagsThen(pks, rest)| == |pks| + |rest|
  {
    FlagsAreMarks(pks, rest);
    AtBoth(buf, i, Marks(pks), rest);
    MarksIff(buf, i, pks);
  }

  lemma MarksIff(buf: seq<byte>, i: nat, pks: seq<bool>)
    ensures At(buf, i, Marks(pks)) <==> FlagsAt(buf, i, pks)
  {
    BytesIff(buf, i, Marks(pks), i + |pks|);
    if BytesAt(buf, i, Marks(pks), i + |pks|) {
      assert forall k | 0 <= k < |pks| :: buf[i + k] == Marks(pks)[k];
    }
  }

  lemma {:induction false} ZeroEndedIs(name: Name)
    ensures ZeroEnded(name) == name + [0]
    decreases |name|
  {
    if name != [] {
      ZeroEndedIs(name[1..]);
      assert name == [name[0]] + name[1..];
    }
  }

  lemma NameIff(buf: seq<byte>, i: nat, name: Name, j: nat)
    ensures NameAt(buf, i, name, j) <==> At(buf, i, ZeroEnded(name)) && j == i + |ZeroEnded(name)|
  {
    ZeroEndedIs(name);
    AtBoth(buf, i, name, [0]);
    AtOne(buf, i + |name|, 0);
    BytesIff(buf, i, name, i + |name|);
  }

  lemma ColumnsIff(buf: seq<byte>, i: nat, t: ChangesetTable, j: nat)
    ensures ColumnsAt(buf, i, t, j) <==>
              At(buf, i, FlagsThen(t.primaryKeys, ZeroEnded(t.name))) && j == i + |FlagsThen(t.primaryKeys, ZeroEnded(t.name))|
  {
    FlagsIff(buf, i, t.primaryKeys, ZeroEnded(t.name));
    NameIff(buf, i + |t.primaryKeys|, t.name, j);
  }

  lemma TableIff(buf: seq<byte>, i: nat, t: ChangesetTable, j: nat)
    requires t.ColumnCount() <= 65536
    ensures var code := EncodeLength(t.ColumnCount()) + FlagsThen(t.primaryKeys, ZeroEnded(t.name));
            TableAt(buf, i, t, j) <==> At(buf, i, code) && j == i + |code|
  {
    var n := t.ColumnCount();
    AtBoth(buf, i, EncodeLength(n), FlagsThen(t.primaryKeys, ZeroEnded(t.name)));
    LengthIff(buf, i, n);
    ColumnsIff(buf, i + |EncodeLength(n)|, t, j);
  }

  /** A header stands somewhere exactly when the bytes the writer writes for it do. */
  lemma HeaderIff(buf: seq<byte>, i: nat, t: ChangesetTable, j: nat)
    requires WritableTable(t)
    ensures HeaderAt(buf, i, t, j) <==> At(buf, i, EncodeHeader(t)) && j == i + |EncodeHeader(t)|
  {
    AtBoth(buf, i, [TABLE_RECORD], EncodeLength(t.ColumnCount()) + FlagsThen(t.primaryKeys, ZeroEnded(t.name)));
    AtOne(buf, i, TABLE_RECORD);
    TableIff(buf, i + 1, t, j);
  }

  // ----- The reader and whole files -----

  /** Whatever is laid out as an entry of the current table is read as it, whatever its second byte. */
  lemma LaidEntryIsRead(buf: seq<byte>, i: nat, e: Entry, j: nat)
    requires WritableEntry(e) && e.WellShaped() && i + 2 <= |buf|
    requires buf[i] == (match e.op case Insert => 18 case Update => 23 case Delete => 9) && RowsAt(buf, i + 2, e, j)
    ensures i < j <= |buf| && Next(buf, i, e.table) == Step(Found(e.Written()), j, e.table)
  {
    RowsIff(buf, i + 2, e, j);
    ReadsRows(buf, i + 2, e.table, e);
    assert e.(table := e.table) == e;
  }

  /** Any byte but zero flags a key column. */
  lemma AnyByteFlags(buf: seq<byte>, i: nat, n: nat)
    requires i + n <= |buf|
    ensures var p := ParseFlags(buf, i, n);
            p.Ok? && p.next == i + n && forall k | 0 <= k < n :: p.value[k] <==> buf[i + k] != 0
  {
    FlagsParse(buf, i, n);
  }

  lemma LaidHeaderIsRead(buf: seq<byte>, i: nat, t0: ChangesetTable, t: ChangesetTable, j: nat)
    requires WritableTable(t) && HeaderAt(buf, i, t, j)
    ensures i < j <= |buf| && Next(buf, i, t0) == Next(buf, j, t)
  {
    HeaderIff(buf, i, t, j);
    ReadsHeader(buf, i, t0, t);
    HeaderSkipped(buf, i, t0, t, j);
  }

  lemma HeaderSkipped(buf: seq<byte>, i: nat, t0: ChangesetTable, t: ChangesetTable, j: nat)
    requires i < |buf| && ParseRecord(buf, i, t0) == Ok(Header(t), j)
    ensures i < j <= |buf| && Next(buf, i, t0) == Next(buf, j, t)
  {
  }

  ghost predicate RecordAt(buf: seq<byte>, i: nat, r: Record, j: nat) {
    match r
    case Header(t) => HeaderAt(buf, i, t, j)
    case Change(e) => EntryAt(buf, i, e, j)
  }

  /** Records one behind the other up to the end. */
  ghost predicate FileAt(buf: seq<byte>, i: nat, rs: seq<Record>)
    decreases |rs|
  {
    if rs == [] then i == |buf| else exists j: nat :: RecordAt(buf, i, rs[0], j) && FileAt(buf, j, rs[1..])
  }

  lemma RecordIff(buf: seq<byte>, i: nat, r: Record, j: nat)
    requires WritableRecord(r)
    ensures RecordAt(buf, i, r, j) <==> At(buf, i, EncodeRecord(r)) && j == i + |EncodeRecord(r)|
  {
    match r
    case Header(t) => HeaderIff(buf, i, t, j);
    case Change(e) => EntryIff(buf, i, e, j);
  }

  ghost predicate CodesLaid(buf: seq<byte>, rs: seq<Record>, codes: seq<seq<byte>>) {
    |codes| == |rs| && forall k | 0 <= k < |rs| :: RecordLaid(buf, rs[k], codes[k])
  }

  ghost predicate RecordLaid(buf: seq<byte>, r: Record, code: seq<byte>) {
    forall i: nat, j: nat :: RecordAt(buf, i, r, j) <==> At(buf, i, code) && j == i + |code|
  }

  lemma RecordsLaid(buf: seq<byte>, rs: seq<Record>)
    requires WritableAll(rs)
    ensures CodesLaid(buf, rs, RecordCodes(rs))
  {
    forall k | 0 <= k < |rs| ensures RecordLaid(buf, rs[k], RecordCodes(rs)[k]) {
      RecordIsLaid(buf, rs[k]);
    }
  }

  lemma RecordIsLaid(buf: seq<byte>, r: Record)
    requires WritableRecord(r)
    ensures RecordLaid(buf, r, EncodeRecord(r))
  {
    forall i: nat, j: nat ensures RecordAt(buf, i, r, j) <==> At(buf, i, EncodeRecord(r)) && j == i + |EncodeRecord(r)| {
      RecordIff(buf, i, r, j);
    }
  }

  lemma {:induction false} CodesIff(buf: seq<byte>, i: nat, rs: seq<Record>, codes: seq<seq<byte>>)
    requires CodesLaid(buf, rs, codes)
    ensures FileAt(buf, i, rs) <==> CodesAt(buf, i, codes, []) && i + |Join(codes, [])| == |buf|
    decreases |rs|
  {
    if rs != [] {
      var next := i + |codes[0]|;
      assert RecordLaid(buf, rs[0], codes[0]);
      JoinFirst(buf, i, codes, []);
      CodesIff(buf, next, rs[1..], codes[1..]);
      if At(buf, i, codes[0]) && FileAt(buf, next, rs[1..]) {
        assert RecordAt(buf, i, rs[0], next);
      }
    }
  }

  /** A file has the layout of these records exactly when it is what the writer writes for them. */
  lemma FileIff(buf: seq<byte>, rs: seq<Record>)
    requires WritableAll(rs)
    ensures FileAt(buf, 0, rs) <==> buf == EncodeAll(rs)
  {
    RecordsLaid(buf, rs);
    CodesIff(buf, 0, rs, RecordCodes(rs));
    if At(buf, 0, EncodeAll(rs)) && |EncodeAll(rs)| == |buf| {
      AtSlice(buf, 0, EncodeAll(rs));
      assert buf[0..|buf|] == buf;
    }
  }

  /** A file laid out as these records is read as their entries, each in the table of the header before it. */
  lemma LaidFileIsRead(buf: seq<byte>, rs: seq<Record>)
    requires WritableAll(rs) && FitsHeaders(rs, NO_TABLE) && FileAt(buf, 0, rs)
    ensures Read(buf) == Contents(EntriesOf(rs, NO_TABLE), true)
  {
    FileIff(buf, rs);
    RoundTrip(rs);
  }

  // ----- What is not a record -----

  /** A record starts with one of four bytes, and a value with one of six; a table has at most 65536 columns. */
  lemma OtherBytesFail(buf: seq<byte>, i: nat, t: ChangesetTable)
    requires i < |buf|
    ensures buf[i] != 84 && buf[i] != 18 && buf[i] != 23 && buf[i] != 9 ==> ParseRecord(buf, i, t) == Fail(i + 1)
    ensures ParseRecord(buf, i, t).Ok? ==>
              match ParseRecord(buf, i, t).value
              case Header(_) => buf[i] == 84
              case Change(e) => buf[i] == (match e.op case Insert => 18 case Update => 23 case Delete => 9)
    ensures buf[i] > 5 ==> ParseValue(buf, i) == Fail(i + 1)
  {
  }

  lemma TooManyColumns(buf: seq<byte>, i: nat, t: ChangesetTable, n: nat, j: nat)
    requires 65536 < n < POW32 && i < |buf| && buf[i] == 84 && BytesAt(buf, i + 1, NumberBytes(n), j)
    ensures ParseRecord(buf, i, t) == Fail(j)
  {
    LengthIff(buf, i + 1, n);
    ReadsLength(buf, i + 1, n);
  }
}
