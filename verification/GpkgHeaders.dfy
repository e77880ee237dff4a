/** The header of a GeoPackage geometry blob (readGpkgHeader, driver/gpkg_functions.go). */
module GpkgHeaders {
  import opened Values
  import opened Wire
  import opened Wkb
  import opened WkbGrammar
  import opened Envelope

  datatype HeaderError = TooSmall | BadMagic | BadVersion | BadEnvelope

  datatype HeaderResult = GoodHeader(empty: bool, env: Option<Box>, size: nat) | BadHeader(error: HeaderError)

  /** How many doubles the envelope of a header holds, by its indicator. */
  function EnvelopeDoubles(indicator: nat): Option<nat> {
    match indicator
    case 0 => Some(0)
    case 1 => Some(4)
    case 2 => Some(6)
    case 3 => Some(8)
    case 4 => Some(6)
    case _ => None
  }

  /** readGpkgHeader (clause 2.1.3 of OGC 12-128). */
  function ReadGpkgHeader(blob: seq<byte>): (h: HeaderResult)
    ensures h.GoodHeader? ==> 8 <= h.size <= |blob| && (h.env.Some? <==> h.size > 8) && (h.env.Some? ==> h.size >= 40)
    ensures h.GoodHeader? && h.env.Some? ==>
              forall i | 0 <= i < 4 :: WordBytes([h.env.value.minX, h.env.value.maxX, h.env.value.minY, h.env.value.maxY][i], WORD, blob[3] % 2 == 1)
                                       == blob[8 + 8 * i..16 + 8 * i]
  {
    if |blob| < 8 then BadHeader(TooSmall)
    else if blob[0] != 'G' as int || blob[1] != 'P' as int then BadHeader(BadMagic)
    else if blob[2] != 0 then BadHeader(BadVersion)
    else
      var flags := blob[3];
      var little := flags % 2 == 1;
      var empty := flags / 16 % 2 == 1;
      match EnvelopeDoubles(flags / 2 % 8)
      case None => BadHeader(BadEnvelope)
      case Some(n) =>
        if |blob| < 8 + 8 * n then BadHeader(TooSmall)
        else if n == 0 then GoodHeader(empty, None, 8)
        else
          WordForth(blob[8..16], little);
          WordForth(blob[16..24], little);
          WordForth(blob[24..32], little);
          WordForth(blob[32..40], little);
          GoodHeader(empty, Some(Box(true, WordOf(blob[8..16], little), WordOf(blob[16..24], little),
                                 WordOf(blob[24..32], little), WordOf(blob[32..40], little))), 8 + 8 * n)
  }

  // ----- A byte string has a header exactly when it starts with the bytes of one -----

  /** What a header says; three bits of its flags have no meaning here. */
  datatype GpkgHeader = GpkgHeader(spare: nat, empty: bool, indicator: nat, little: bool, srs: seq<byte>, doubles: seq<nat>) {
    predicate WellFormed() {
      && spare < 8 && indicator < 8 && |srs| == 4
      && EnvelopeDoubles(indicator) == Some(|doubles|) && OrdsOk(doubles, |doubles|)
    }

    function Flags(): byte
      requires WellFormed()
    {
      spare * 32 + (if empty then 16 else 0) + indicator * 2 + if little then 1 else 0
    }

    function Size(): nat {
      8 + 8 * |doubles|
    }

    /** The first four doubles; those of the other dimensions are skipped. */
    function Env(): Option<Box>
      requires WellFormed()
    {
      if doubles == [] then None else Some(Box(true, doubles[0], doubles[1], doubles[2], doubles[3]))
    }
  }

  function HeaderThen(h: GpkgHeader, rest: seq<byte>): seq<byte>
    requires h.WellFormed()
  {
    [71, 80, 0, h.Flags()] + (h.srs + OrdsThen(h.doubles, h.little, rest))
  }

  /** Doubles one after the other, by position. */
  lemma {:induction false} OrdsAt(buf: seq<byte>, n: nat, little: bool)
    ensures TakeOrds(buf, n, little).Took? <==> 8 * n <= |buf|
    ensures 8 * n <= |buf| ==>
              var r := TakeOrds(buf, n, little);
              r.rest == buf[8 * n..] && forall i | 0 <= i < n :: r.value[i] == WordOf(buf[8 * i..8 * i + 8], little)
    decreases n
  {
    if n > 0 && |buf| >= WORD {
      OrdsAt(buf[WORD..], n - 1, little);
      if 8 * n <= |buf| {
        forall i | 0 <= i < n ensures TakeOrds(buf, n, little).value[i] == WordOf(buf[8 * i..8 * i + 8], little) {
          if i > 0 {
            assert buf[WORD..][8 * (i - 1)..8 * (i - 1) + 8] == buf[8 * i..8 * i + 8];
          }
        }
      }
    }
  }

  lemma FlagBits(h: GpkgHeader)
    requires h.WellFormed()
    ensures (h.Flags() % 2 == 1) == h.little && (h.Flags() / 16 % 2 == 1) == h.empty && h.Flags() / 2 % 8 == h.indicator
  {
  }

  lemma Shifted(head: seq<byte>, body: seq<byte>, i: nat, j: nat)
    requires i <= j <= |body|
    ensures (head + body)[|head| + i..|head| + j] == body[i..j] && (head + body)[|head| + i..] == body[i..]
  {
  }

  /** The doubles of a header where the reader looks for them. */
  lemma DoublesAt(h: GpkgHeader, rest: seq<byte>, i: nat)
    requires h.WellFormed() && i < |h.doubles|
    ensures |HeaderThen(h, rest)| >= h.Size()
    ensures WordOf(HeaderThen(h, rest)[8 + 8 * i..16 + 8 * i], h.little) == h.doubles[i]
  {
    var body := OrdsThen(h.doubles, h.little, rest);
    OrdsBuilt(h.doubles, |h.doubles|, h.little, rest);
    OrdsAt(body, |h.doubles|, h.little);
    Front(h, rest);
    Shifted(HeaderThen(h, rest)[..8], body, 8 * i, 8 * i + 8);
  }

  /** The eight bytes before the doubles. */
  lemma Front(h: GpkgHeader, rest: seq<byte>)
    requires h.WellFormed()
    ensures var blob := HeaderThen(h, rest);
            && blob[..8] == [71, 80, 0, h.Flags()] + h.srs && blob[8..] == OrdsThen(h.doubles, h.little, rest)
            && blob == blob[..8] + blob[8..]
            && blob[0] == 71 && blob[1] == 80 && blob[2] == 0 && blob[3] == h.Flags()
  {
  }

  lemma RestAfter(h: GpkgHeader, rest: seq<byte>)
    requires h.WellFormed()
    ensures |HeaderThen(h, rest)| >= h.Size() && HeaderThen(h, rest)[h.Size()..] == rest
  {
    var body := OrdsThen(h.doubles, h.little, rest);
    OrdsBuilt(h.doubles, |h.doubles|, h.little, rest);
    OrdsAt(body, |h.doubles|, h.little);
    Front(h, rest);
    Shifted(HeaderThen(h, rest)[..8], body, 8 * |h.doubles|, |body|);
  }

  /** The bytes of a header, whatever follows them, read as that header. */
  lemma HeaderBuilt(h: GpkgHeader, rest: seq<byte>)
    requires h.WellFormed()
    ensures ReadGpkgHeader(HeaderThen(h, rest)) == GoodHeader(h.empty, h.Env(), h.Size())
    ensures HeaderThen(h, rest)[h.Size()..] == rest
  {
    FlagBits(h);
    Front(h, rest);
    RestAfter(h, rest);
    if h.doubles != [] {
      DoublesAt(h, rest, 0);
      DoublesAt(h, rest, 1);
      DoublesAt(h, rest, 2);
      DoublesAt(h, rest, 3);
    }
  }

  lemma ByteBits(flags: byte)
    ensures flags / 32 * 32 + flags / 16 % 2 * 16 + flags / 2 % 8 * 2 + flags % 2 == flags && flags / 32 < 8
  {
    var half, upper := flags / 2, flags / 16;
    assert flags == 2 * half + flags % 2 && upper == half / 8;
    assert half == 8 * upper + half % 8;
    assert upper == 2 * (flags / 32) + upper % 2;
  }

  lemma Reassemble(blob: seq<byte>)
    requires |blob| >= 8
    ensures blob == [blob[0], blob[1], blob[2], blob[3]] + (blob[4..8] + blob[8..])
  {
  }

  /** The header whose bytes stand at the front of the blob. */
  function HeaderIn(blob: seq<byte>, doubles: seq<nat>): GpkgHeader
    requires |blob| >= 8
  {
    GpkgHeader(blob[3] / 32, blob[3] / 16 % 2 == 1, blob[3] / 2 % 8, blob[3] % 2 == 1, blob[4..8], doubles)
  }

  lemma HeaderInFlags(blob: seq<byte>, doubles: seq<nat>)
    requires |blob| >= 8 && EnvelopeDoubles(blob[3] / 2 % 8) == Some(|doubles|) && OrdsOk(doubles, |doubles|)
    ensures HeaderIn(blob, doubles).WellFormed() && HeaderIn(blob, doubles).Flags() == blob[3]
  {
    ByteBits(blob[3]);
  }

  lemma HeaderInBytes(blob: seq<byte>, doubles: seq<nat>, rest: seq<byte>)
    requires |blob| >= 8 && blob[0] == 71 && blob[1] == 80 && blob[2] == 0
    requires HeaderIn(blob, doubles).WellFormed() && HeaderIn(blob, doubles).Flags() == blob[3]
    requires blob[8..] == OrdsThen(doubles, blob[3] % 2 == 1, rest)
    ensures blob == HeaderThen(HeaderIn(blob, doubles), rest)
  {
    Reassemble(blob);
  }

  lemma TailOf(blob: seq<byte>, n: nat)
    requires 8 + n <= |blob|
    ensures blob[8..][n..] == blob[8 + n..]
  {
  }

  /** An accepted blob starts with the bytes of a header. */
  lemma HeaderTaken(blob: seq<byte>) returns (h: GpkgHeader)
    requires ReadGpkgHeader(blob).GoodHeader?
    ensures h.WellFormed() && h.Size() == ReadGpkgHeader(blob).size && blob == HeaderThen(h, blob[h.Size()..])
  {
    var n := EnvelopeDoubles(blob[3] / 2 % 8).value;
    var little := blob[3] % 2 == 1;
    OrdsAt(blob[8..], n, little);
    OrdsTaken(blob[8..], n, little);
    var doubles := TakeOrds(blob[8..], n, little).value;
    h := HeaderIn(blob, doubles);
    HeaderInFlags(blob, doubles);
    TailOf(blob, 8 * n);
    HeaderInBytes(blob, doubles, blob[8 + 8 * n..]);
  }

  /** readGpkgHeader accepts exactly the blobs that start with a well-formed header, and reports what it says. */
  lemma ReadsExactlyHeaders(blob: seq<byte>)
    ensures ReadGpkgHeader(blob).GoodHeader? <==> exists h: GpkgHeader, rest :: h.WellFormed() && blob == HeaderThen(h, rest)
    ensures forall h: GpkgHeader, rest | h.WellFormed() && blob == HeaderThen(h, rest) ::
              ReadGpkgHeader(blob) == GoodHeader(h.empty, h.Env(), h.Size())
  {
    forall h: GpkgHeader, rest | h.WellFormed() && blob == HeaderThen(h, rest)
      ensures ReadGpkgHeader(blob) == GoodHeader(h.empty, h.Env(), h.Size())
    {
      HeaderBuilt(h, rest);
    }
    if ReadGpkgHeader(blob).GoodHeader? {
      var h := HeaderTaken(blob);
    }
  }
}
