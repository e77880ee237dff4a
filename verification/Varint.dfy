/**
 Variable-length integers (varint/varint.go): the format of section 1.6 of the
 SQLite database file format, up to eight 7-bit chunks and a full ninth byte.
 */
module Varint {
  import opened Values

  const POW56: nat := 0x100_0000_0000_0000
  const MAX_UINT32: nat := 0xffff_ffff

  datatype Decoded = Got(value: nat, count: nat) | EndOfBuffer | TooLong

  // ----- What a buffer and a value mean -----

  /** The value of a run of 7-bit chunks. */
  function Value(bs: seq<byte>): nat {
    if bs == [] then 0 else Value(bs[..|bs| - 1]) * 128 + bs[|bs| - 1] % 128
  }

  /** How many bytes have the high bit set before the first one that does not. */
  function Leading(buf: seq<byte>): (n: nat)
    ensures n <= |buf|
  {
    if buf == [] || buf[0] < 128 then 0 else 1 + Leading(buf[1..])
  }

  lemma {:induction false} LeadingIs(buf: seq<byte>, n: nat)
    requires n <= |buf| && (forall j | 0 <= j < n :: buf[j] >= 128)
    ensures Leading(buf) >= n
    ensures n < |buf| && buf[n] < 128 ==> Leading(buf) == n
    decreases n
  {
    if n > 0 {
      LeadingIs(buf[1..], n - 1);
    }
  }

  /** At most this many chunks of 7 bits; a full byte may follow them. */
  const CHUNKS: nat := 8

  function Decode(buf: seq<byte>): (d: Decoded)
    ensures d.Got? ==> 1 <= d.count <= 9 && d.count <= |buf|
  {
    var n := Leading(buf);
    if n >= CHUNKS then
      if |buf| == CHUNKS then EndOfBuffer else Got(Value(buf[..CHUNKS]) * 256 + buf[CHUNKS], CHUNKS + 1)
    else if n < |buf| then Got(Value(buf[..n + 1]), n + 1)
    else EndOfBuffer
  }

  function Clamp(d: Decoded): Decoded {
    match d
    case Got(v, n) => Got(if v > MAX_UINT32 then MAX_UINT32 else v, n)
    case _ => d
  }

  /** The lowest n 7-bit chunks of v, most significant first, with the high bit set. */
  function Chunks(v: nat, n: nat): (r: seq<byte>)
    ensures |r| == n
  {
    if n == 0 then [] else if n == 1 then [v % 128 + 128] else Chunks(v / 128, n - 1) + [v % 128 + 128]
  }

  /** How many 7-bit chunks v needs. */
  function ChunkCount(v: nat): (n: nat)
    ensures n >= 1
  {
    if v < 128 then 1 else 1 + ChunkCount(v / 128)
  }

  /** Values of more than eight chunks take nine bytes, which hold 64 bits. */
  function Encode(v: nat): (r: seq<byte>)
    ensures |r| == if ChunkCount(v) <= CHUNKS then ChunkCount(v) else 9
  {
    if ChunkCount(v) == 1 then [v % 128]
    else if ChunkCount(v) <= CHUNKS then Chunks(v / 128, ChunkCount(v) - 1) + [v % 128]
    else Chunks(v / 256, CHUNKS) + [v % 256]
  }

  // ----- The bytes of an encoding -----

  lemma DivTwice(v: nat, p: nat)
    requires p >= 1
    ensures v / 128 / p == v / (128 * p)
  {
    var q := v / 128 / p;
    var r := v / 128 - q * p;
    assert v == (q * p + r) * 128 + v % 128;
    assert v == q * (128 * p) + (r * 128 + v % 128);
    assert 0 <= r * 128 + v % 128 < 128 * p;
    Quotient(v, 128 * p, q, r * 128 + v % 128);
  }

  lemma Quotient(v: nat, d: nat, q: nat, r: nat)
    requires d >= 1 && v == q * d + r && r < d
    ensures v / d == q
  {
    var x, y := v / d, v % d;
    assert v == x * d + y && 0 <= y < d;
    if q + 1 <= x {
      Grows(q + 1, x, d);
    }
    if x + 1 <= q {
      Grows(x + 1, q, d);
    }
  }

  lemma Grows(a: nat, b: nat, d: nat)
    requires a <= b
    ensures a * d <= b * d
  {
  }

  lemma {:induction false} ChunksByte(v: nat, n: nat, j: nat)
    requires j < n
    ensures Chunks(v, n)[j] == v / Pow128(n - 1 - j) % 128 + 128
    decreases n
  {
    if j < n - 1 {
      ChunksByte(v / 128, n - 1, j);
      DivTwice(v, Pow128(n - 2 - j));
    }
  }

  /**
   The bytes: 7 bits each, most significant first, the high bit set on all but
   the last; a ninth byte holds the lowest 8 bits in full.
   */
  lemma EncodeByte(v: nat, j: nat)
    requires j < |Encode(v)|
    ensures |Encode(v)| <= 8 ==> Encode(v)[j] == v / Pow128(|Encode(v)| - 1 - j) % 128 + if j < |Encode(v)| - 1 then 128 else 0
    ensures |Encode(v)| == 9 ==> Encode(v)[j] == if j < 8 then v / 256 / Pow128(7 - j) % 128 + 128 else v % 256
  {
    var n := |Encode(v)|;
    if n == 9 && j < 8 {
      ChunksByte(v / 256, CHUNKS, j);
    } else if 1 < n <= 8 && j < n - 1 {
      ChunksByte(v / 128, n - 1, j);
      DivTwice(v, Pow128(n - 2 - j));
    }
  }

  /** n bytes suffice exactly for values below 128 to the n; nine take the rest. */
  lemma EncodeSize(v: nat, n: nat)
    requires 1 <= n <= 8
    ensures |Encode(v)| <= n <==> v < Pow128(n)
  {
    ChunkCountBound(v, n);
  }

  // ----- Round trip -----

  function Pow128(n: nat): (r: nat)
    ensures r >= 1
  {
    if n == 0 then 1 else 128 * Pow128(n - 1)
  }

  lemma PowersOf128()
    ensures Pow128(1) == 128 && Pow128(2) == 128 * 128 && Pow128(8) == POW56
  {
    assert Pow128(4) == 0x1000_0000;
    assert Pow128(6) == 128 * (128 * Pow128(4));
  }

  lemma {:induction false} ValueOfChunks(v: nat, n: nat)
    requires v < Pow128(n)
    ensures Value(Chunks(v, n)) == v && forall j | 0 <= j < n :: Chunks(v, n)[j] >= 128
  {
    if n > 0 {
      ValueOfChunks(v / 128, n - 1);
      assert Chunks(v, n)[..n - 1] == Chunks(v / 128, n - 1);
    }
  }

  lemma {:induction false} ValueBound(bs: seq<byte>)
    ensures Value(bs) < Pow128(|bs|)
    decreases |bs|
  {
    if bs != [] {
      ValueBound(bs[..|bs| - 1]);
    }
  }

  lemma {:induction false} ChunkCountBound(v: nat, n: nat)
    requires n >= 1
    ensures v < Pow128(n) <==> ChunkCount(v) <= n
    decreases n
  {
    if n == 1 {
      PowersOf128();
    } else if v >= 128 {
      ChunkCountBound(v / 128, n - 1);
      assert v < 128 * Pow128(n - 1) <==> v / 128 < Pow128(n - 1);
    } else {
      assert Pow128(n) == 128 * Pow128(n - 1);
    }
  }

  /** Decoding an encoding, whatever follows it, gives the value and the exact byte count. */
  lemma RoundTrip(v: nat, rest: seq<byte>)
    requires v < POW64
    ensures Decode(Encode(v) + rest) == Got(v, |Encode(v)|)
  {
    PowersOf128();
    ChunkCountBound(v, CHUNKS);
    if v < POW56 {
      RoundTripShort(v, rest);
    } else {
      var buf := Encode(v) + rest;
      ValueOfChunks(v / 256, CHUNKS);
      assert buf[..CHUNKS] == Chunks(v / 256, CHUNKS) && buf[CHUNKS] == v % 256;
      forall j | 0 <= j < CHUNKS ensures buf[j] >= 128 {
        assert buf[j] == Chunks(v / 256, CHUNKS)[j];
      }
      LeadingIs(buf, CHUNKS);
    }
  }

  lemma RoundTripShort(v: nat, rest: seq<byte>)
    requires ChunkCount(v) <= CHUNKS
    ensures Decode(Encode(v) + rest) == Got(v, ChunkCount(v))
  {
    EncodeShape(v);
    DecodePrefix(Encode(v), rest);
  }

  /** Only the last byte has its high bit clear. */
  ghost predicate OneLow(code: seq<byte>) {
    code != [] && code[|code| - 1] < 128 && forall j | 0 <= j < |code| - 1 :: code[j] >= 128
  }

  lemma EncodeShape(v: nat)
    requires ChunkCount(v) <= CHUNKS
    ensures OneLow(Encode(v)) && Value(Encode(v)) == v
  {
    if ChunkCount(v) == 1 {
      EncodeOne(v);
      ValueOfOne(v);
    } else {
      EncodeLong(v);
      LongShape(v, v / 128, ChunkCount(v / 128));
    }
  }

  lemma EncodeOne(v: nat)
    requires ChunkCount(v) == 1
    ensures v < 128 && Encode(v) == [v]
  {
  }

  lemma EncodeLong(v: nat)
    requires 1 < ChunkCount(v) <= CHUNKS
    ensures Encode(v) == Chunks(v / 128, ChunkCount(v / 128)) + [v % 128]
  {
  }

  lemma LongShape(v: nat, top: nat, n: nat)
    requires n >= 1 && ChunkCount(top) == n && top == v / 128
    ensures OneLow(Chunks(top, n) + [v % 128]) && Value(Chunks(top, n) + [v % 128]) == v
  {
    ChunkCountBound(top, n);
    ValueOfChunks(top, n);
    LowAfterHigh(Chunks(top, n), v % 128);
  }

  lemma ValueOfOne(b: byte)
    requires b < 128
    ensures OneLow([b]) && Value([b]) == b
  {
    assert [b][..0] == [];
  }

  lemma LowAfterHigh(high: seq<byte>, last: byte)
    requires high != [] && last < 128 && forall j | 0 <= j < |high| :: high[j] >= 128
    ensures OneLow(high + [last]) && Value(high + [last]) == Value(high) * 128 + last
  {
    var code := high + [last];
    forall j | 0 <= j < |code| - 1 ensures code[j] >= 128 {
      assert code[j] == high[j];
    }
    ValueSnoc(high, last);
  }

  lemma ValueSnoc(bs: seq<byte>, b: byte)
    requires bs != []
    ensures Value(bs + [b]) == Value(bs) * 128 + b % 128
  {
    assert (bs + [b])[..|bs|] == bs;
  }

  lemma DecodePrefix(code: seq<byte>, rest: seq<byte>)
    requires |code| <= CHUNKS && OneLow(code)
    ensures Decode(code + rest) == Got(Value(code), |code|)
  {
    var buf := code + rest;
    assert buf[..|code|] == code;
    assert forall j | 0 <= j < |code| :: buf[j] == code[j];
    LeadingIs(buf, |code| - 1);
  }

  /** Whatever a buffer decodes to fits 64 bits, and no encoding of the value is shorter than Encode's. */
  lemma EncodeShortest(buf: seq<byte>)
    requires Decode(buf).Got?
    ensures Decode(buf).value < POW64 && |Encode(Decode(buf).value)| <= Decode(buf).count <= |buf|
  {
    var d, n := Decode(buf), Leading(buf);
    PowersOf128();
    ChunkCountBound(d.value, CHUNKS);
    if n < CHUNKS {
      ValueBound(buf[..n + 1]);
      ChunkCountBound(d.value, n + 1);
      if n + 1 < CHUNKS {
        ChunkCountMonotone(d.value, n + 1);
      }
    } else {
      ValueBound(buf[..CHUNKS]);
    }
  }

  lemma ChunkCountMonotone(v: nat, n: nat)
    requires 1 <= n <= CHUNKS && v < Pow128(n)
    ensures v < Pow128(CHUNKS) && ChunkCount(v) <= n
  {
    ChunkCountBound(v, n);
    ChunkCountBound(v, CHUNKS);
  }

  // ----- Reading -----

  function Pow2(n: nat): (r: nat)
    ensures r >= 1
  {
    if n == 0 then 1 else 2 * Pow2(n - 1)
  }

  /** `high << shift | low` where the bits of `low` lie below the shift. */
  function ShiftOr(high: nat, shift: nat, low: nat): nat
    requires low < Pow2(shift)
  {
    high * Pow2(shift) + low
  }

  /** The part of the value that chunks i to 7 make up. */
  function HighPart(buf: seq<byte>, i: nat): nat
    requires i <= CHUNKS <= |buf|
    decreases CHUNKS - i
  {
    if i == CHUNKS then 0 else buf[i] % 128 * Pow128(CHUNKS - 1 - i) + HighPart(buf, i + 1)
  }

  lemma {:induction false} HighPartSplit(buf: seq<byte>, i: nat)
    requires i <= CHUNKS <= |buf|
    ensures Value(buf[..CHUNKS]) == Value(buf[..i]) * Pow128(CHUNKS - i) + HighPart(buf, i)
    decreases CHUNKS - i
  {
    if i < CHUNKS {
      HighPartSplit(buf, i + 1);
      assert buf[..i + 1][..i] == buf[..i];
      Distribute(Value(buf[..i]), buf[i] % 128, Pow128(CHUNKS - 1 - i));
    } else {
      assert Value(buf[..i]) * Pow128(0) == Value(buf[..i]);
    }
  }

  lemma Distribute(acc: nat, b: nat, p: nat)
    ensures (acc * 128 + b) * p == acc * (128 * p) + b * p
  {
  }

  lemma TopDigit(b: nat, low: nat, p: nat)
    requires b < 128 && low < p
    ensures b * p + low < 128 * p
  {
    assert b * p <= 127 * p;
  }

  lemma {:induction false} Pow2Plus(a: nat, b: nat)
    ensures Pow2(a + b) == Pow2(a) * Pow2(b)
    decreases b
  {
    if b > 0 {
      Pow2Plus(a, b - 1);
      assert Pow2(a) * (2 * Pow2(b - 1)) == 2 * (Pow2(a) * Pow2(b - 1));
    }
  }

  lemma {:induction false} Pow2Of7(n: nat)
    ensures Pow2(7 * n + 8) == Pow128(n) * 256
  {
    if n == 0 {
      Pow2Plus(4, 4);
    } else {
      Pow2Of7(n - 1);
      Pow2Plus(7 * (n - 1) + 8, 7);
      Pow2Plus(3, 4);
    }
  }

  lemma {:induction false} HighPartBound(buf: seq<byte>, i: nat)
    requires i <= CHUNKS <= |buf|
    ensures HighPart(buf, i) < Pow128(CHUNKS - i)
    decreases CHUNKS - i
  {
    if i < CHUNKS {
      HighPartBound(buf, i + 1);
      TopDigit(buf[i] % 128, HighPart(buf, i + 1), Pow128(CHUNKS - 1 - i));
    }
  }

  lemma NextHighChunk(buf: seq<byte>, i: nat)
    requires i < CHUNKS && |buf| >= 9
    ensures var low := HighPart(buf, i + 1) * 256 + buf[8];
            && low < Pow2(7 * (7 - i) + 8)
            && ShiftOr(buf[i] % 128, 7 * (7 - i) + 8, low) == HighPart(buf, i) * 256 + buf[8]
  {
    HighPartBound(buf, i + 1);
    Pow2Of7(7 - i);
    ByteAbove(buf[i] % 128, Pow128(7 - i));
  }

  lemma ByteAbove(b: nat, p: nat)
    ensures b * (p * 256) == b * p * 256
  {
  }

  /** The 9-byte case: the last byte whole, the others OR-ed in above it. */
  method ReadNine(buf: seq<byte>) returns (value: nat)
    requires |buf| >= 9
    ensures value == Value(buf[..CHUNKS]) * 256 + buf[8]
  {
    value := buf[8];
    for i := 8 downto 0
      invariant value == HighPart(buf, i) * 256 + buf[8]
    {
      NextHighChunk(buf, i);
      value := ShiftOr(buf[i] % 128, 7 * (7 - i) + 8, value);
    }
    HighPartSplit(buf, 0);
    assert buf[..0] == [];
  }

  lemma FirstValues(buf: seq<byte>)
    ensures |buf| >= 1 ==> Value(buf[..1]) == (buf[0] as nat) % 128
    ensures |buf| >= 2 ==> Value(buf[..2]) == (buf[0] as nat) % 128 * 128 + buf[1] % 128
    ensures |buf| >= 3 ==> Value(buf[..3]) == (buf[0] as nat) % 128 * 0x4000 + (buf[1] as nat) % 128 * 128 + buf[2] % 128
  {
    if |buf| >= 1 {
      assert buf[..1][..0] == [];
    }
    if |buf| >= 2 {
      assert buf[..2][..1] == buf[..1];
    }
    if |buf| >= 3 {
      assert buf[..3][..2] == buf[..2];
    }
  }

  /** The loop over 7-bit chunks, where no full ninth byte ends the integer. */
  method ReadChunked(buf: seq<byte>) returns (r: Decoded)
    requires |buf| >= 9 ==> exists j :: 0 <= j < 8 && buf[j] < 0x80
    ensures r == Decode(buf) && r != TooLong
  {
    var value: nat, n: nat := 0, 0;
    while n < 8 && n < |buf|
      invariant n <= 8 && n <= |buf|
      invariant forall j | 0 <= j < n :: buf[j] >= 128
      invariant value == Value(buf[..n])
    {
      assert buf[..n + 1][..n] == buf[..n];
      LeadingIs(buf, n);
      var b := buf[n];
      value := value * 128 + b % 128;
      n := n + 1;
      if b < 0x80 {
        return Got(value, n);
      }
    }
    LeadingIs(buf, n);
    if n >= |buf| {
      return EndOfBuffer;
    }
    assert false;
    r := TooLong;
  }

  /** getVarint64. ErrVarintTooLong is never returned. */
  method GetVarint64(buf: seq<byte>) returns (r: Decoded)
    ensures r == Decode(buf)
    ensures r != TooLong
  {
    FirstValues(buf);
    if |buf| == 0 {
      return EndOfBuffer;
    }
    if buf[0] < 0x80 {
      return Got(buf[0], 1);
    }
    if |buf| >= 9 {
      var allHigh := true;
      for i := 0 to 8
        invariant allHigh <==> forall j | 0 <= j < i :: buf[j] >= 128
      {
        if buf[i] < 0x80 {
          allHigh := false;
          break;
        }
      }
      if allHigh {
        LeadingIs(buf, 8);
        var v := ReadNine(buf);
        return Got(v, 9);
      }
    }
    r := ReadChunked(buf);
  }

  /** The full decoding, clamped. */
  method GetClamped(buf: seq<byte>) returns (r: Decoded)
    ensures r == Clamp(Decode(buf))
  {
    var full := GetVarint64(buf);
    match full {
      case Got(v, n) => r := if v > 0xffffffff then Got(0xffffffff, n) else full;
      case _ => r := full;
    }
  }

  lemma DecodesTwo(buf: seq<byte>)
    requires |buf| >= 2 && buf[0] >= 0x80 && buf[1] < 0x80
    ensures Decode(buf) == Got((buf[0] as nat) % 128 * 128 + buf[1], 2)
  {
    FirstValues(buf);
    LeadingIs(buf, 1);
  }

  lemma DecodesThree(buf: seq<byte>)
    requires |buf| >= 3 && buf[0] >= 0x80 && buf[1] >= 0x80 && buf[2] < 0x80
    ensures Decode(buf) == Got((buf[0] as nat) % 128 * 0x4000 + (buf[1] as nat) % 128 * 128 + buf[2], 3)
  {
    FirstValues(buf);
    LeadingIs(buf, 2);
  }

  /** Bit 7 of `hi << 14 | lo`, and its bits under the mask of two chunks. */
  lemma ThreeByteBits(hi: byte, lo: byte)
    ensures var a: nat := (hi as nat) * 0x4000 + lo;
            && (a / 128 % 2 == 0 <==> lo < 0x80)
            && a / 0x4000 == hi && a % 128 == lo % 128
  {
    var a: nat := (hi as nat) * 0x4000 + lo;
    assert a / 128 == (hi as nat) * 128 + lo / 128;
  }

  /** GetVarint: its one-, two- and three-byte paths are the full decoding, clamped to 32 bits. */
  method GetVarint(buf0: seq<byte>, p: nat) returns (r: Decoded)
    ensures r == if p >= |buf0| then EndOfBuffer else Clamp(Decode(buf0[p..]))
  {
    if p >= |buf0| {
      return EndOfBuffer;
    }
    var buf := buf0[p..];
    if buf[0] < 0x80 {
      FirstValues(buf);
      return Got(buf[0], 1);
    }
    if |buf| >= 2 && buf[1] < 0x80 {
      DecodesTwo(buf);
      return Got((buf[0] as nat) % 128 * 128 + buf[1], 2);
    }
    if |buf| >= 3 {
      var a: nat := (buf[0] as nat) * 0x4000 + buf[2];
      ThreeByteBits(buf[0], buf[2]);
      if a / 128 % 2 == 0 {
        DecodesThree(buf);
        a := a / 0x4000 % 128 * 0x4000 + a % 128;
        var b: nat := (buf[1] as nat) % 128 * 128;
        return Got(a + b, 3);
      }
    }
    r := GetClamped(buf);
  }

  // ----- Writing -----

  /** The first n bytes of `buf`, last one first. */
  method TurnRound(buf: array<byte>, n: nat, p: array<byte>)
    requires n <= buf.Length && n <= p.Length && buf != p
    modifies p
    ensures forall k | 0 <= k < n :: p[k] == buf[n - 1 - k]
    ensures p[n..] == old(p[n..])
  {
    var i, j := 0, n - 1;
    while j >= 0
      invariant -1 <= j < n && i == n - 1 - j
      invariant forall k | 0 <= k < i :: p[k] == buf[n - 1 - k]
      invariant p[n..] == old(p[n..])
    {
      p[i] := buf[j];
      i, j := i + 1, j - 1;
    }
  }

  /** Chunks least significant first. */
  method FillChunks(buf: array<byte>, v0: nat) returns (n: nat)
    requires buf.Length == 10 && v0 < POW56
    modifies buf
    ensures n == ChunkCount(v0) <= 8
    ensures forall k | 0 <= k < n :: buf[k] == Chunks(v0, n)[n - 1 - k]
  {
    ghost var total, all := ChunkCount(v0), Chunks(v0, ChunkCount(v0));
    PowersOf128();
    ChunkCountBound(v0, 8);
    var v: nat := v0;
    n := 0;
    while true
      invariant n < total <= 8
      invariant ChunkCount(v) == total - n
      invariant Chunks(v, total - n) == all[..total - n]
      invariant forall k | 0 <= k < n :: buf[k] == all[total - 1 - k]
      decreases v
    {
      buf[n] := v % 128 + 0x80;
      assert Chunks(v, total - n)[total - n - 1] == v % 128 + 128;
      assert Chunks(v / 128, total - n - 1) == Chunks(v, total - n)[..total - n - 1];
      n := n + 1;
      v := v / 128;
      if v == 0 {
        break;
      }
    }
  }

  /** The general case: chunks into a local buffer, then turned round into the output. */
  method PutChunks(p: array<byte>, v: nat) returns (n: nat)
    requires p.Length >= 9 && v < POW56
    modifies p
    ensures n == |Encode(v)| && p[..n] == Encode(v) && p[n..] == old(p[n..])
  {
    PowersOf128();
    ChunkCountBound(v, CHUNKS);
    var buf := new byte[10](_ => 0);
    n := FillChunks(buf, v);
    assert Chunks(v, n) == Chunks(v / 128, n - 1) + [v % 128 + 128];
    buf[0] := buf[0] % 128;
    assert forall k | 0 <= k < n :: buf[k] == Encode(v)[n - 1 - k];
    TurnRound(buf, n, p);
  }

  /** putVarint64 into the first bytes of p; the rest of p is left alone. */
  method PutVarint64(p: array<byte>, v: nat) returns (n: nat)
    requires p.Length >= 9 && v < POW64
    modifies p
    ensures n == |Encode(v)| && p[..n] == Encode(v) && p[n..] == old(p[n..])
  {
    PowersOf128();
    ChunkCountBound(v, CHUNKS);
    if v <= 0x7f {
      p[0] := v;
      assert Chunks(v / 128, 0) == [];
      return 1;
    }
    if v <= 0x3fff {
      p[0], p[1] := v / 128 % 128 + 0x80, v % 128;
      assert Chunks(v / 128, 1) == Chunks(v / 128 / 128, 0) + [v / 128 % 128 + 128];
      assert ChunkCount(v) == 2 && ChunkCount(v / 128) == 1;
      return 2;
    }
    if v / POW56 != 0 {
      p[8] := v % 256;
      var rest: nat := v / 256;
      for i := 8 downto 0
        invariant Chunks(rest, i) + p[i..8] == Chunks(v / 256, CHUNKS)
        invariant p[8] == v % 256 && p[9..] == old(p[9..])
      {
        ghost var tail := p[i + 1..8];
        p[i] := rest % 128 + 0x80;
        assert p[i..8] == [p[i]] + tail;
        assert Chunks(rest, i + 1) == Chunks(rest / 128, i) + [p[i]];
        rest := rest / 128;
      }
      assert p[..9] == p[0..8] + [p[8]];
      return 9;
    }
    n := PutChunks(p, v);
  }
}
