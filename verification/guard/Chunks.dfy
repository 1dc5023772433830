// How a message is cut into packets of at most 1400 bytes, numbered from one.
module Chunks {
  import opened ByteStrings

  const MAX_PAYLOAD := 1400

  function Packets(n: nat): nat { (n + MAX_PAYLOAD - 1) / MAX_PAYLOAD }

  function Min(a: nat, b: nat): nat { if a < b then a else b }

  // The bytes of packets 1 to b - 1.
  function Prefix(d: Bytes, b: nat): Bytes
    requires b >= 1
  {
    d[..Min(MAX_PAYLOAD * (b - 1), |d|)]
  }

  // The bytes of packet s.
  function Chunk(d: Bytes, s: nat): Bytes
    requires 1 <= s <= Packets(|d|)
  {
    d[MAX_PAYLOAD * (s - 1)..Min(MAX_PAYLOAD * s, |d|)]
  }

  lemma PrefixNext(d: Bytes, b: nat)
    requires 1 <= b <= Packets(|d|)
    ensures Prefix(d, b) + Chunk(d, b) == Prefix(d, b + 1)
  {}

  lemma PrefixAll(d: Bytes)
    ensures Prefix(d, Packets(|d|) + 1) == d
  {}

  // Byte i of a message is byte i mod 1400 of packet i / 1400 + 1, and all packets but the last are
  // full.
  lemma ByteOfPacket(d: Bytes, i: nat)
    requires i < |d|
    ensures var s := i / 1400 + 1;
            1 <= s <= Packets(|d|) && i % 1400 < |Chunk(d, s)| && Chunk(d, s)[i % 1400] == d[i] &&
            |Chunk(d, s)| <= 1400 && (s < Packets(|d|) ==> |Chunk(d, s)| == 1400)
    ensures 1400 * (Packets(|d|) - 1) < |d| <= 1400 * Packets(|d|)
  {}
}
