// The wire format of a frame: Ethernet header, packed protocol header with a CRC-32 over
// header and payload, payload. Numbers are big-endian.
module FrameCodec {
  import opened ByteStrings
  import opened Crc32
  import Receiver
  type Frame = Receiver.Frame
  type Kind = Receiver.Kind

  // ---------- Numbers ----------

  // The low n bytes of x, most significant first.
  function ToBytes(n: nat, x: nat): (r: Bytes)
    ensures |r| == n
  {
    if n == 0 then [] else ToBytes(n - 1, x / 256) + [(x % 256) as bv8]
  }

  function FromBytes(b: Bytes): nat {
    if b == [] then 0 else 256 * FromBytes(b[..|b| - 1]) + b[|b| - 1] as nat
  }

  lemma {:induction false} FromToBytes(n: nat, x: nat)
    requires x < Pow256(n)
    ensures FromBytes(ToBytes(n, x)) == x
  {
    if n > 0 {
      FromToBytes(n - 1, x / 256);
      NarrowWiden(x % 256);
      assert ToBytes(n, x)[..n - 1] == ToBytes(n - 1, x / 256);
    }
  }

  // Byte i counts 256 to the power n - 1 - i.
  lemma {:induction false} ToBytesIsExact(n: nat, x: nat, i: nat)
    requires i < n
    ensures ToBytes(n, x)[i] as int == x / Pow256(n - 1 - i) % 256
  {
    NarrowWiden(x % 256);
    if i < n - 1 {
      ToBytesIsExact(n - 1, x / 256, i);
      DivideTwice(x, Pow256(n - 2 - i));
    }
  }

  function WordToBytes(w: Word): (r: Bytes)
    ensures |r| == 4
  {
    [((w >> 24) & 0xFF) as bv8, ((w >> 16) & 0xFF) as bv8, ((w >> 8) & 0xFF) as bv8, (w & 0xFF) as bv8]
  }

  function WordFromBytes(a: bv8, b: bv8, c: bv8, d: bv8): Word {
    (a as Word << 24) | (b as Word << 16) | (c as Word << 8) | d as Word
  }

  lemma WordRoundTrip(w: Word)
    ensures var b := WordToBytes(w); WordFromBytes(b[0], b[1], b[2], b[3]) == w
  {}

  lemma WordFromBytesInjective(a: bv8, b: bv8, c: bv8, d: bv8)
    ensures WordToBytes(WordFromBytes(a, b, c, d)) == [a, b, c, d]
  {}

  // ---------- Building ----------

  const ETHERTYPE: Bytes := [0x88, 0xB5]

  type Mac = m: Bytes | |m| == 6 witness [0, 0, 0, 0, 0, 0]

  function KindByte(k: Kind): bv8 {
    match k
    case START => 1
    case DATA => 2
    case ACK => 3
    case END => 4
    case UNKNOWN => 0
  }

  function KindOf(b: bv8): Kind {
    if b == 1 then Receiver.START else if b == 2 then Receiver.DATA else if b == 3 then Receiver.ACK
    else if b == 4 then Receiver.END else Receiver.UNKNOWN
  }

  // The header up to the CRC field, 21 bytes.
  function Fields(f: Frame): (r: Bytes)
    ensures |r| == 21
  {
    [KindByte(f.kind)] + ToBytes(4, f.session) + ToBytes(4, f.seqNum) + ToBytes(8, f.totalSize)
      + ToBytes(2, |f.payload|) + ToBytes(2, f.window)
  }

  const NO_CRC: Bytes := [0, 0, 0, 0]

  function Covered(f: Frame): Bytes { Fields(f) + NO_CRC + f.payload }

  function Build(dst: Mac, src: Mac, f: Frame): Bytes {
    dst + src + ETHERTYPE + Fields(f) + WordToBytes(Crc(Covered(f))) + f.payload
  }

  // Where every field lies in a frame, and what the CRC covers.
  lemma FrameLayout(dst: Mac, src: Mac, f: Frame)
    ensures var b := Build(dst, src, f);
            |b| == 39 + |f.payload| && b[..6] == dst && b[6..12] == src && b[12..14] == [0x88, 0xB5] &&
            b[14] == (match f.kind case START => 1 case DATA => 2 case ACK => 3 case END => 4 case UNKNOWN => 0) &&
            b[15..19] == ToBytes(4, f.session) && b[19..23] == ToBytes(4, f.seqNum) &&
            b[23..31] == ToBytes(8, f.totalSize) && b[31..33] == ToBytes(2, |f.payload|) &&
            b[33..35] == ToBytes(2, f.window) && b[39..] == f.payload &&
            b[35..39] == WordToBytes(Crc(b[14..35] + [0, 0, 0, 0] + b[39..]))
  {
    hide ToBytes; hide WordToBytes; hide Crc;
    var b := Build(dst, src, f);
    assert b[14..35] == Fields(f);
    assert b[39..] == f.payload;
  }

  // Every field fits its place on the wire.
  predicate Fits(f: Frame) {
    f.kind != Receiver.UNKNOWN && f.session < 0x1_0000_0000 && f.seqNum < 0x1_0000_0000 &&
    f.totalSize < 0x1_0000_0000_0000_0000 && |f.payload| < 0x1_0000 && f.window < 0x1_0000
  }

  method BuildFrame(table: array<Word>, dst: Mac, src: Mac, f: Frame) returns (frame: Bytes)
    requires table.Length == 256 && forall i :: 0 <= i < 256 ==> table[i] == Steps(i as bv8 as Word, 8)
    ensures frame == Build(dst, src, f)
  {
    hide Steps; hide Crc; hide Fields; hide WordToBytes;
    var crc := ComputeCrc32(table, Fields(f) + NO_CRC + f.payload);
    frame := dst + src + ETHERTYPE + Fields(f) + WordToBytes(crc) + f.payload;
  }

  // ---------- Parsing ----------

  // Byte offsets in the frame: the header starts at 14, its length field is at 31, its CRC
  // at 35 and the payload at 39.
  function PayloadLength(b: Bytes): nat
    requires |b| >= 39
  {
    FromBytes(b[31..33])
  }

  // What the CRC is computed over: header and payload with the CRC field zeroed.
  function Zeroed(b: Bytes, n: nat): Bytes
    requires |b| >= 39 + n
  {
    b[14..35] + NO_CRC + b[39..39 + n]
  }

  // The length, address, type and CRC checks of the receive loop.
  predicate Accepted(me: Mac, b: Bytes) {
    |b| >= 39 && b[..6] == me && b[12..14] == ETHERTYPE &&
    |b| >= 39 + PayloadLength(b) &&
    WordFromBytes(b[35], b[36], b[37], b[38]) == Crc(Zeroed(b, PayloadLength(b)))
  }

  function FieldsOf(b: Bytes): Frame
    requires |b| >= 39 && |b| >= 39 + PayloadLength(b)
  {
    Receiver.Frame.Frame(KindOf(b[14]), FromBytes(b[15..19]), FromBytes(b[19..23]), FromBytes(b[23..31]),
                         FromBytes(b[33..35]), b[39..39 + PayloadLength(b)])
  }

  // The frame, if it passes the checks.
  function Parse(me: Mac, b: Bytes): Receiver.Option<Frame> {
    if Accepted(me, b) then Receiver.Some(FieldsOf(b)) else Receiver.None
  }

  method CheckFrame(table: array<Word>, me: Mac, b: Bytes) returns (r: Receiver.Option<Frame>)
    requires table.Length == 256 && forall i :: 0 <= i < 256 ==> table[i] == Steps(i as bv8 as Word, 8)
    ensures r == Parse(me, b)
  {
    hide Steps; hide Crc; hide WordFromBytes;
    if |b| < 39 { return Receiver.None; }
    if b[..6] != me { return Receiver.None; }
    if b[12..14] != ETHERTYPE { return Receiver.None; }
    var payloadLen := PayloadLength(b);
    if |b| < 39 + payloadLen { return Receiver.None; }
    var received := WordFromBytes(b[35], b[36], b[37], b[38]);
    var calculated := ComputeCrc32(table, b[14..35] + NO_CRC + b[39..39 + payloadLen]);
    if received != calculated { return Receiver.None; }
    r := Receiver.Some(FieldsOf(b));
  }

  // ---------- What the two promise each other ----------

  // The parts of a built frame, whatever padding follows it.
  lemma Layout(dst: Mac, src: Mac, f: Frame, pad: Bytes)
    ensures var b := Build(dst, src, f) + pad;
            var c := WordToBytes(Crc(Covered(f)));
            var n := |f.payload|;
            |b| == 39 + n + |pad| && b[..6] == dst && b[12..14] == ETHERTYPE && b[14..35] == Fields(f) &&
            b[35..39] == c && b[39..39 + n] == f.payload
  {
    hide Fields; hide Crc; hide WordToBytes; hide Covered;
  }

  lemma FieldLayout(f: Frame)
    ensures var h := Fields(f);
            h[0] == KindByte(f.kind) && h[1..5] == ToBytes(4, f.session) && h[5..9] == ToBytes(4, f.seqNum) &&
            h[9..17] == ToBytes(8, f.totalSize) && h[17..19] == ToBytes(2, |f.payload|) &&
            h[19..21] == ToBytes(2, f.window)
  {
    hide ToBytes; hide KindByte;
  }

  lemma FieldsRoundTrip(f: Frame)
    requires Fits(f)
    ensures var h := Fields(f);
            KindOf(h[0]) == f.kind && FromBytes(h[1..5]) == f.session && FromBytes(h[5..9]) == f.seqNum &&
            FromBytes(h[9..17]) == f.totalSize && FromBytes(h[17..19]) == |f.payload| &&
            FromBytes(h[19..21]) == f.window
  {
    hide ToBytes; hide FromBytes; hide Fields;
    FieldLayout(f);
    FromToBytes(4, f.session);
    FromToBytes(4, f.seqNum);
    FromToBytes(8, f.totalSize);
    FromToBytes(2, |f.payload|);
    FromToBytes(2, f.window);
  }

  // Every built frame passes the receiver's checks, padded or not, and yields its fields.
  lemma ParseBuild(dst: Mac, src: Mac, f: Frame, pad: Bytes)
    requires Fits(f)
    ensures Parse(dst, Build(dst, src, f) + pad) == Receiver.Some(f)
  {
    hide Fields; hide Crc; hide WordToBytes; hide WordFromBytes; hide FromBytes; hide Build; hide KindOf;
    var b := Build(dst, src, f) + pad;
    var w := Crc(Covered(f));
    Layout(dst, src, f, pad);
    FieldsRoundTrip(f);
    HeaderSlices(b, Fields(f));
    CrcSlice(b, w);
    WordRoundTrip(w);
    assert Zeroed(b, |f.payload|) == Covered(f);
  }

  lemma HeaderSlices(b: Bytes, h: Bytes)
    requires |b| >= 39 && |h| == 21 && b[14..35] == h
    ensures b[14] == h[0] && b[15..19] == h[1..5] && b[19..23] == h[5..9] && b[23..31] == h[9..17] &&
            b[31..33] == h[17..19] && b[33..35] == h[19..21]
  {
    assert forall i :: 14 <= i < 35 ==> b[i] == h[i - 14];
  }

  lemma CrcSlice(b: Bytes, w: Word)
    requires |b| >= 39 && b[35..39] == WordToBytes(w)
    ensures var c := WordToBytes(w); b[35] == c[0] && b[36] == c[1] && b[37] == c[2] && b[38] == c[3]
  {
    hide WordToBytes;
    var c := WordToBytes(w);
    assert forall i :: 35 <= i < 39 ==> b[i] == b[35..39][i - 35];
  }

  lemma LengthUnchanged(b: Bytes, k: nat, v: bv8)
    requires |b| >= 39 && 14 <= k < |b| && !(31 <= k < 33)
    ensures PayloadLength(b[k := v]) == PayloadLength(b)
  {
    hide FromBytes;
    assert b[k := v][31..33] == b[31..33];
  }

  lemma CrcByteIsSeen(b: Bytes, k: nat, v: bv8)
    requires |b| >= 39 && 35 <= k < 39 && b[k] != v
    ensures var g := b[k := v];
            WordFromBytes(g[35], g[36], g[37], g[38]) != WordFromBytes(b[35], b[36], b[37], b[38])
  {
    hide WordFromBytes; hide WordToBytes;
    var g := b[k := v];
    WordFromBytesInjective(g[35], g[36], g[37], g[38]);
    WordFromBytesInjective(b[35], b[36], b[37], b[38]);
    assert [g[35], g[36], g[37], g[38]][k - 35] == v && [b[35], b[36], b[37], b[38]][k - 35] == b[k];
  }

  lemma CoveredByteIsSeen(b: Bytes, n: nat, k: nat, v: bv8)
    requires |b| >= 39 + n && (14 <= k < 35 || 39 <= k < 39 + n) && b[k] != v
    ensures Crc(Zeroed(b[k := v], n)) != Crc(Zeroed(b, n))
  {
    hide Crc;
    assert Zeroed(b[k := v], n) == Zeroed(b, n)[k - 14 := v];
    OneByteIsSeen(Zeroed(b, n), k - 14, v);
  }

  // A frame that passes the checks no longer passes them after exactly one header or
  // payload byte has been changed, other than the two bytes of the payload length.
  lemma OneByteIsRejected(me: Mac, b: Bytes, k: nat, v: bv8)
    requires Accepted(me, b) && 14 <= k < 39 + PayloadLength(b) && !(31 <= k < 33) && b[k] != v
    ensures Parse(me, b[k := v]) == Receiver.None
  {
    hide Crc; hide WordFromBytes; hide PayloadLength; hide Zeroed;
    var n := PayloadLength(b);
    LengthUnchanged(b, k, v);
    if 35 <= k < 39 {
      CrcByteIsSeen(b, k, v);
      assert Zeroed(b[k := v], n) == Zeroed(b, n) by { CrcNotCovered(b, n, k, v); }
    } else {
      CoveredByteIsSeen(b, n, k, v);
    }
  }

  lemma CrcNotCovered(b: Bytes, n: nat, k: nat, v: bv8)
    requires |b| >= 39 + n && 35 <= k < 39
    ensures Zeroed(b[k := v], n) == Zeroed(b, n)
  {}
}
