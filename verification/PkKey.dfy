/** The string that names a row while changesets are merged (pkKey, changeset/concat.go). */
module PkKey {
  import opened Values
  import opened Rows
  import opened Doubles

  /** strconv.FormatFloat on the bits of a double; what it prints is left to the caller. */
  type FloatFormat = nat -> seq<byte>

  const OPEN: byte := 91
  const CLOSE: byte := 93

  /** strconv.FormatInt, base 10. */
  function Digits(n: nat): (r: seq<byte>)
    ensures r != [] && forall i | 0 <= i < |r| :: 48 <= r[i] < 58
  {
    if n < 10 then [48 + n] else Digits(n / 10) + [48 + n % 10]
  }

  function Decimal(n: int): (r: seq<byte>)
    ensures CLOSE !in r
  {
    if n < 0 then [45] + Digits(-n) else Digits(n)
  }

  function HexDigit(d: nat): byte
    requires d < 16
  {
    if d < 10 then 48 + d else 87 + d
  }

  /** hex.EncodeToString */
  function Hex(blob: seq<byte>): (r: seq<byte>)
    ensures |r| == 2 * |blob| && CLOSE !in r
  {
    seq(2 * |blob|, i requires 0 <= i < 2 * |blob| => HexDigit(if i % 2 == 0 then blob[i / 2] / 16 else blob[i / 2] % 16))
  }

  function ValueKey(v: Value, fmt: FloatFormat): seq<byte> {
    match v
    case Int(n) => [73, 58] + Decimal(n)
    case Double(bits) => [68, 58] + fmt(bits)
    case Text(text) => [84, 58] + text
    case Blob(blob) => [66, 58] + Hex(blob)
    case Null => [78]
    case Undefined => [85]
  }

  function Bracketed(v: Value, fmt: FloatFormat): seq<byte> {
    [OPEN] + ValueKey(v, fmt) + [CLOSE]
  }

  /** The key columns among the first k, one bracketed part each. */
  function PkString(pks: seq<bool>, vals: Row, k: nat, fmt: FloatFormat): seq<byte>
    requires k <= |pks| == |vals|
  {
    if k == 0 then []
    else if pks[k - 1] then PkString(pks, vals, k - 1, fmt) + Bracketed(vals[k - 1], fmt)
    else PkString(pks, vals, k - 1, fmt)
  }

  function KeyString(e: Entry, fmt: FloatFormat): seq<byte>
    requires e.WellShaped()
  {
    PkString(e.table.primaryKeys, e.KeyValues(), |e.table.primaryKeys|, fmt)
  }

  method BuildKey(e: Entry, fmt: FloatFormat) returns (sb: seq<byte>)
    requires e.WellShaped()
    ensures sb == KeyString(e, fmt)
  {
    sb := [];
    var values := e.oldValues;
    if e.op == Insert {
      values := e.newValues;
    }
    for i := 0 to |e.table.primaryKeys|
      invariant sb == PkString(e.table.primaryKeys, values, i, fmt)
    {
      if e.table.primaryKeys[i] {
        sb := sb + ([OPEN] + ValueKey(values[i], fmt) + [CLOSE]);
      }
    }
  }

  /** Entries that name the same row have the same string. */
  lemma {:induction false} SameKeySameString(pks: seq<bool>, a: Row, b: Row, k: nat, fmt: FloatFormat)
    requires k <= |pks| == |a| == |b|
    requires forall i | 0 <= i < k && pks[i] :: a[i] == b[i]
    ensures PkString(pks, a, k, fmt) == PkString(pks, b, k, fmt)
  {
    if k > 0 {
      SameKeySameString(pks, a, b, k - 1, fmt);
    }
  }

  lemma SameIdSameString(e: Entry, f: Entry, fmt: FloatFormat)
    requires e.WellShaped() && f.WellShaped() && e.table == f.table && IdOf(e) == IdOf(f)
    ensures KeyString(e, fmt) == KeyString(f, fmt)
  {
    var pks := e.table.primaryKeys;
    forall i | 0 <= i < |pks| && pks[i] ensures e.KeyValues()[i] == f.KeyValues()[i] {
      assert KeyOf(pks, e.KeyValues())[i] == KeyOf(pks, f.KeyValues())[i];
    }
    SameKeySameString(pks, e.KeyValues(), f.KeyValues(), |pks|, fmt);
  }

  // ----- One value can be read back from its key -----

  function DigitsValue(s: seq<byte>): int {
    if s == [] then 0 else DigitsValue(s[..|s| - 1]) * 10 - 48 + s[|s| - 1]
  }

  lemma {:induction false} DigitsRoundTrip(n: nat)
    ensures DigitsValue(Digits(n)) == n
  {
    if n < 10 {
      assert [48 + n as byte][..0] == [];
      assert DigitsValue([]) == 0;
    } else {
      DigitsRoundTrip(n / 10);
      var d := Digits(n / 10) + [48 + n % 10];
      assert d[..|d| - 1] == Digits(n / 10);
    }
  }

  lemma DecimalInjective(m: int, n: int)
    requires Decimal(m) == Decimal(n)
    ensures m == n
  {
    DigitsRoundTrip(if m < 0 then -m else m);
    DigitsRoundTrip(if n < 0 then -n else n);
    assert Decimal(m)[0] == Decimal(n)[0];
    if m < 0 && n < 0 {
      assert Decimal(m)[1..] == Digits(-m) && Decimal(n)[1..] == Digits(-n);
    }
  }

  lemma HexInjective(a: seq<byte>, b: seq<byte>)
    requires Hex(a) == Hex(b)
    ensures a == b
  {
    forall i | 0 <= i < |a| ensures a[i] == b[i] {
      assert Hex(a)[2 * i] == Hex(b)[2 * i];
      assert Hex(a)[2 * i + 1] == Hex(b)[2 * i + 1];
    }
  }

  /** The formatter prints no two numbers alike; it may print all NaN patterns alike. */
  ghost predicate PrintsNumbersApart(fmt: FloatFormat) {
    forall a: nat, b: nat | IsNumber(a) && IsNumber(b) && fmt(a) == fmt(b) :: a == b
  }

  /** Any value but a double; a double if it is a number and numbers are printed apart. */
  ghost predicate Readable(v: Value, fmt: FloatFormat) {
    v.Double? ==> IsNumber(v.bits) && PrintsNumbersApart(fmt)
  }

  ghost predicate ReadableKey(pks: seq<bool>, vals: Row, fmt: FloatFormat)
    requires |pks| == |vals|
  {
    forall i | 0 <= i < |pks| && pks[i] :: Readable(vals[i], fmt)
  }

  /** The type tag settles the type, so only two doubles need the formatter. */
  lemma ValueKeyInjective(v: Value, w: Value, fmt: FloatFormat)
    requires v.Double? && w.Double? ==> Readable(v, fmt) && Readable(w, fmt)
    requires ValueKey(v, fmt) == ValueKey(w, fmt)
    ensures v == w
  {
    var a, b := ValueKey(v, fmt), ValueKey(w, fmt);
    assert a[0] == b[0];
    assert |a| >= 2 ==> a[2..] == b[2..];
    match v {
      case Int(n) => DecimalInjective(n, w.n);
      case Blob(blob) => HexInjective(blob, w.blob);
      case _ =>
    }
  }

  // ----- Which tables pkKey tells the rows of apart -----

  /** The parts before the first key column are empty. */
  lemma {:induction false} NoKeysNoParts(pks: seq<bool>, vals: Row, i: nat, k: nat, fmt: FloatFormat)
    requires i <= k <= |pks| == |vals| && forall j | i <= j < k :: !pks[j]
    ensures PkString(pks, vals, k, fmt) == PkString(pks, vals, i, fmt)
  {
    if i < k {
      NoKeysNoParts(pks, vals, i, k - 1, fmt);
    }
  }

  ghost predicate AtMostOneKey(pks: seq<bool>) {
    forall i, j | 0 <= i < |pks| && 0 <= j < |pks| && pks[i] && pks[j] :: i == j
  }

  /** Any two rows with readable keys and the same string have the same key. */
  ghost predicate TellsRowsApart(pks: seq<bool>, fmt: FloatFormat) {
    forall a: Row, b: Row | |a| == |b| == |pks| && ReadableKey(pks, a, fmt) && ReadableKey(pks, b, fmt) && PkString(pks, a, |pks|, fmt) == PkString(pks, b, |pks|, fmt) ::
      KeyOf(pks, a) == KeyOf(pks, b)
  }

  lemma OneKeyString(pks: seq<bool>, vals: Row, i: nat, fmt: FloatFormat)
    requires AtMostOneKey(pks) && i < |pks| == |vals| && pks[i]
    ensures PkString(pks, vals, |pks|, fmt) == Bracketed(vals[i], fmt)
  {
    NoKeysNoParts(pks, vals, 0, i, fmt);
    NoKeysNoParts(pks, vals, i + 1, |pks|, fmt);
  }

  lemma BracketedInjective(v: Value, w: Value, fmt: FloatFormat)
    requires Readable(v, fmt) && Readable(w, fmt) && Bracketed(v, fmt) == Bracketed(w, fmt)
    ensures v == w
  {
    var x, y := Bracketed(v, fmt), Bracketed(w, fmt);
    assert x[1..|x| - 1] == ValueKey(v, fmt) && y[1..|y| - 1] == ValueKey(w, fmt);
    ValueKeyInjective(v, w, fmt);
  }

  lemma OneKeyInjective(pks: seq<bool>, a: Row, b: Row, fmt: FloatFormat)
    requires AtMostOneKey(pks) && |a| == |b| == |pks| && ReadableKey(pks, a, fmt) && ReadableKey(pks, b, fmt)
    requires PkString(pks, a, |pks|, fmt) == PkString(pks, b, |pks|, fmt)
    ensures KeyOf(pks, a) == KeyOf(pks, b)
  {
    if i :| 0 <= i < |pks| && pks[i] {
      OneKeyString(pks, a, i, fmt);
      OneKeyString(pks, b, i, fmt);
      BracketedInjective(a[i], b[i], fmt);
    }
  }

  const BETWEEN: seq<byte> := [CLOSE, OPEN, 84, 58]

  lemma PartsCollide(p: seq<byte>, fmt: FloatFormat)
    ensures p + Bracketed(Text(BETWEEN), fmt) + Bracketed(Text([]), fmt) == p + Bracketed(Text([]), fmt) + Bracketed(Text(BETWEEN), fmt)
  {
    assert Bracketed(Text(BETWEEN), fmt) + Bracketed(Text([]), fmt) == Bracketed(Text([]), fmt) + Bracketed(Text(BETWEEN), fmt);
    assert p + Bracketed(Text(BETWEEN), fmt) + Bracketed(Text([]), fmt) == p + (Bracketed(Text(BETWEEN), fmt) + Bracketed(Text([]), fmt));
  }

  lemma TwoParts(pks: seq<bool>, vals: Row, i: nat, j: nat, fmt: FloatFormat)
    requires i < j < |pks| == |vals| && pks[i] && pks[j] && forall k | i < k < j :: !pks[k]
    ensures PkString(pks, vals, j + 1, fmt) == PkString(pks, vals, i, fmt) + Bracketed(vals[i], fmt) + Bracketed(vals[j], fmt)
  {
    NoKeysNoParts(pks, vals, i + 1, j, fmt);
  }

  /** With two key columns, text that contains `][T:` moves from one part to the next unnoticed. */
  lemma TwoKeysCollide(pks: seq<bool>, i: nat, j: nat, fmt: FloatFormat)
    requires i < j < |pks| && pks[i] && pks[j] && forall k | i < k < j :: !pks[k]
    ensures !TellsRowsApart(pks, fmt)
  {
    var n := |pks|;
    var a := seq(n, k => if k == i then Text(BETWEEN) else Text([]));
    var b := seq(n, k => if k == j then Text(BETWEEN) else Text([]));
    SwappedParts(pks, a, b, i, j, fmt);
    SameTailSameString(pks, a, b, j + 1, n, fmt);
    assert KeyOf(pks, a)[i] != KeyOf(pks, b)[i] by {
      assert BETWEEN != [];
    }
  }

  /** Up to the second part the strings are equal. */
  lemma SwappedParts(pks: seq<bool>, a: Row, b: Row, i: nat, j: nat, fmt: FloatFormat)
    requires i < j < |pks| == |a| == |b| && pks[i] && pks[j] && forall k | i < k < j :: !pks[k]
    requires a[i] == Text(BETWEEN) && a[j] == Text([]) && b[i] == Text([]) && b[j] == Text(BETWEEN)
    requires forall k | 0 <= k < i :: a[k] == b[k]
    ensures PkString(pks, a, j + 1, fmt) == PkString(pks, b, j + 1, fmt)
  {
    SameKeySameString(pks, a, b, i, fmt);
    TwoParts(pks, a, i, j, fmt);
    TwoParts(pks, b, i, j, fmt);
    PartsCollide(PkString(pks, a, i, fmt), fmt);
  }

  lemma {:induction false} SameTailSameString(pks: seq<bool>, a: Row, b: Row, k: nat, n: nat, fmt: FloatFormat)
    requires k <= n <= |pks| == |a| == |b|
    requires PkString(pks, a, k, fmt) == PkString(pks, b, k, fmt)
    requires forall i | k <= i < n :: a[i] == b[i]
    ensures PkString(pks, a, n, fmt) == PkString(pks, b, n, fmt)
  {
    if k < n {
      SameTailSameString(pks, a, b, k, n - 1, fmt);
    }
  }

  /** pkKey tells all rows with readable keys apart exactly when the key has at most one column. */
  lemma TellsApartIffOneKey(pks: seq<bool>, fmt: FloatFormat)
    ensures TellsRowsApart(pks, fmt) <==> AtMostOneKey(pks)
  {
    if AtMostOneKey(pks) {
      forall a: Row, b: Row | |a| == |b| == |pks| && ReadableKey(pks, a, fmt) && ReadableKey(pks, b, fmt) && PkString(pks, a, |pks|, fmt) == PkString(pks, b, |pks|, fmt)
        ensures KeyOf(pks, a) == KeyOf(pks, b)
      {
        OneKeyInjective(pks, a, b, fmt);
      }
    } else {
      var i, j := NeighbouringKeys(pks);
      TwoKeysCollide(pks, i, j, fmt);
    }
  }

  lemma NeighbouringKeys(pks: seq<bool>) returns (i: nat, j: nat)
    requires !AtMostOneKey(pks)
    ensures i < j < |pks| && pks[i] && pks[j] && forall k | i < k < j :: !pks[k]
  {
    var a, b :| 0 <= a < |pks| && 0 <= b < |pks| && pks[a] && pks[b] && a != b;
    i := if a < b then a else b;
    j := i + 1;
    while !pks[j]
      invariant i < j <= (if a < b then b else a) && forall k | i < k < j :: !pks[k]
      decreases |pks| - j
    {
      j := j + 1;
    }
  }

  // ----- Composite keys without a closing bracket -----

  ghost predicate PlainAndReadable(v: Value, fmt: FloatFormat) {
    Plain(v, fmt) && Readable(v, fmt)
  }

  /** A value whose part contains no bracket of its own. */
  ghost predicate Plain(v: Value, fmt: FloatFormat) {
    CLOSE !in ValueKey(v, fmt)
  }

  ghost predicate PlainKey(pks: seq<bool>, vals: Row, fmt: FloatFormat)
    requires |pks| == |vals|
  {
    forall i | 0 <= i < |pks| && pks[i] :: PlainAndReadable(vals[i], fmt)
  }

  /** Integers, blobs, NULL and text without ']' are plain. */
  lemma PlainValues(v: Value, fmt: FloatFormat)
    ensures v.Int? || v.Blob? || v.Null? || v.Undefined? ==> Plain(v, fmt)
    ensures v.Text? ==> (Plain(v, fmt) <==> CLOSE !in v.text)
  {
    if v.Text? && CLOSE in v.text {
      var i :| 0 <= i < |v.text| && v.text[i] == CLOSE;
      assert ValueKey(v, fmt)[i + 2] == CLOSE;
    }
  }

  /** Empty, or ending in ']'. */
  predicate Closed(p: seq<byte>) {
    p == [] || p[|p| - 1] == CLOSE
  }

  /** A string that ends in one bracketed plain part: the last other ']' ends what is before the part. */
  lemma LastPartStarts(p: seq<byte>, v: seq<byte>)
    requires CLOSE !in v && Closed(p)
    ensures var s := p + ([OPEN] + v + [CLOSE]);
            && (p != [] ==> s[|p| - 1] == CLOSE)
            && (forall i | |p| <= i < |s| - 1 :: s[i] != CLOSE)
            && s[..|p|] == p && s[|p| + 1..|s| - 1] == v
  {
    var s := p + ([OPEN] + v + [CLOSE]);
    forall i | |p| < i < |s| - 1 ensures s[i] != CLOSE {
      assert s[i] == v[i - |p| - 1];
    }
  }

  /** Two plain parts at the end of equal strings are equal, and so is what is before them. */
  lemma LastPart(p: seq<byte>, q: seq<byte>, v: Value, w: Value, fmt: FloatFormat)
    requires p + Bracketed(v, fmt) == q + Bracketed(w, fmt)
    requires Plain(v, fmt) && Plain(w, fmt) && Readable(v, fmt) && Readable(w, fmt)
    requires Closed(p) && Closed(q)
    ensures p == q && v == w
  {
    LastPartStarts(p, ValueKey(v, fmt));
    LastPartStarts(q, ValueKey(w, fmt));
    assert |p| == |q|;
    ValueKeyInjective(v, w, fmt);
  }

  lemma {:induction false} EndsInClose(pks: seq<bool>, vals: Row, k: nat, fmt: FloatFormat)
    requires k <= |pks| == |vals|
    ensures Closed(PkString(pks, vals, k, fmt))
  {
    if k > 0 {
      EndsInClose(pks, vals, k - 1, fmt);
    }
  }

  lemma LastKeyPart(pks: seq<bool>, a: Row, b: Row, k: nat, fmt: FloatFormat)
    requires 0 < k <= |pks| == |a| == |b|
    requires pks[k - 1] ==> PlainAndReadable(a[k - 1], fmt) && PlainAndReadable(b[k - 1], fmt)
    requires PkString(pks, a, k, fmt) == PkString(pks, b, k, fmt)
    ensures (pks[k - 1] ==> a[k - 1] == b[k - 1]) && PkString(pks, a, k - 1, fmt) == PkString(pks, b, k - 1, fmt)
  {
    var p, q := PkString(pks, a, k - 1, fmt), PkString(pks, b, k - 1, fmt);
    PkStringLast(pks, a, k, fmt);
    PkStringLast(pks, b, k, fmt);
    if pks[k - 1] {
      EndsInClose(pks, a, k - 1, fmt);
      EndsInClose(pks, b, k - 1, fmt);
      LastPart(p, q, a[k - 1], b[k - 1], fmt);
    }
  }

  lemma PkStringLast(pks: seq<bool>, vals: Row, k: nat, fmt: FloatFormat)
    requires 0 < k <= |pks| == |vals|
    ensures PkString(pks, vals, k, fmt) ==
            if pks[k - 1] then PkString(pks, vals, k - 1, fmt) + Bracketed(vals[k - 1], fmt) else PkString(pks, vals, k - 1, fmt)
  {
  }

  /** For composite keys the string names the row as long as no key part contains ']'. */
  lemma {:induction false} PlainKeysInjective(pks: seq<bool>, a: Row, b: Row, k: nat, fmt: FloatFormat, i: nat)
    requires i < k <= |pks| == |a| == |b| && pks[i]
    requires PlainKey(pks, a, fmt) && PlainKey(pks, b, fmt)
    requires PkString(pks, a, k, fmt) == PkString(pks, b, k, fmt)
    ensures a[i] == b[i]
    decreases k
  {
    LastKeyPart(pks, a, b, k, fmt);
    if i < k - 1 {
      PlainKeysInjective(pks, a, b, k - 1, fmt, i);
    }
  }
}
