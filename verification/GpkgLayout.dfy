/** The header of a GeoPackage blob byte by byte (clause 2.1.3 of OGC 12-128), with its numbers written out. */
module GpkgLayout {
  import opened Values
  import opened Wire
  import opened Wkb
  import opened Envelope
  import opened GpkgHeaders
  import opened WkbLayout

  /** Bytes before the body, by envelope: none, XY, XYZ, XYZM and XYM. */
  function HeaderSize(envelope: nat): nat {
    if envelope == 0 then 8 else if envelope == 1 then 40 else if envelope == 3 then 72 else 56
  }

  /** 'G', 'P', version 0, then flags whose bits 1 to 3 are one of the five envelopes; and the blob holds the whole header. */
  ghost predicate HasHeader(blob: seq<byte>) {
    && |blob| >= 8 && blob[0] == 71 && blob[1] == 80 && blob[2] == 0
    && blob[3] / 2 % 8 <= 4 && HeaderSize(blob[3] / 2 % 8) <= |blob|
  }

  /** The envelope's doubles: least X, greatest X, least Y, greatest Y, in the byte order of bit 0 of the flags. */
  ghost predicate EnvelopeIs(env: Box, blob: seq<byte>)
    requires |blob| >= 40
  {
    var little := blob[3] % 2 == 1;
    && env.ok
    && Word64Is(env.minX, little, blob[8..], blob[16..])
    && Word64Is(env.maxX, little, blob[16..], blob[24..])
    && Word64Is(env.minY, little, blob[24..], blob[32..])
    && Word64Is(env.maxY, little, blob[32..], blob[40..])
  }

  lemma EnvelopeWord(blob: seq<byte>, i: nat, little: bool)
    requires i + 8 <= |blob|
    ensures Word64Is(WordOf(blob[i..i + 8], little), little, blob[i..], blob[i + 8..])
  {
    var word := blob[i..i + 8];
    EightBytesOf(word, little);
    assert forall k | 0 <= k < 8 :: word[k] == blob[i..][k];
    assert blob[i..][8..] == blob[i + 8..];
  }

  /** A blob is accepted exactly when it has a header; bit 4 of the flags says it is empty, and its envelope is the header's. */
  lemma HeaderByBytes(blob: seq<byte>)
    ensures ReadGpkgHeader(blob).GoodHeader? <==> HasHeader(blob)
    ensures HasHeader(blob) ==>
              var h := ReadGpkgHeader(blob);
              && h.size == HeaderSize(blob[3] / 2 % 8) && h.empty == (blob[3] / 16 % 2 == 1)
              && (h.env.Some? <==> blob[3] / 2 % 8 != 0)
              && (h.env.Some? ==> EnvelopeIs(h.env.value, blob))
  {
    if HasHeader(blob) && blob[3] / 2 % 8 != 0 {
      var little := blob[3] % 2 == 1;
      EnvelopeWord(blob, 8, little);
      EnvelopeWord(blob, 16, little);
      EnvelopeWord(blob, 24, little);
      EnvelopeWord(blob, 32, little);
    }
  }
}
