// The ARIA cipher and its key schedule as functions (sections 2.2 and 2.3 of RFC 5794),
// and the proof that deciphering undoes enciphering for every key and block.
module AriaCipher {
  import opened ByteStrings
  import opened AriaTables
  import opened Aria

  // ---------- The cipher ----------

  // The block after i rounds; even-numbered and odd-numbered rounds substitute differently.
  function Rounds(x: Block, ks: seq<Block>, i: nat): Block
    requires i <= |ks|
  {
    if i == 0 then x
    else Diffuse(Substitute((i - 1) % 2, Xor(ks[i - 1], Rounds(x, ks, i - 1))))
  }

  lemma RoundsNone(x: Block, ks: seq<Block>)
    ensures Rounds(x, ks, 0) == x
  {}

  lemma RoundsNext(x: Block, ks: seq<Block>, i: nat)
    requires i < |ks|
    ensures Rounds(x, ks, i + 1) == Diffuse(Substitute(i % 2, Xor(ks[i], Rounds(x, ks, i))))
  {}

  // All |ks| - 1 rounds; the last one has its diffusion undone and a final key added.
  function Cipher(x: Block, ks: seq<Block>): Block
    requires |ks| > 0
  {
    var R := |ks| - 1;
    Xor(ks[R], Diffuse(Rounds(x, ks, R)))
  }

  // The keys in reverse, all but the outer two passed through the diffusion layer.
  function DecryptionKeys(ks: seq<Block>): (ds: seq<Block>)
    requires |ks| > 1
    ensures |ds| == |ks|
  {
    var R := |ks| - 1;
    seq(|ks|, i requires 0 <= i <= R => if i == 0 then ks[R] else if i == R then ks[0] else Diffuse(ks[R - i]))
  }

  // After i deciphering rounds the block is what entered the mirrored enciphering round's
  // substitution, seen through the diffusion layer.
  lemma {:induction false} RoundsMirror(x: Block, ks: seq<Block>, i: nat)
    requires |ks| > 1 && |ks| % 2 == 1 && 1 <= i < |ks|
    ensures var R := |ks| - 1;
            Rounds(Cipher(x, ks), DecryptionKeys(ks), i) == Diffuse(Xor(ks[R - i], Rounds(x, ks, R - i)))
  {
    hide Substitute; hide Diffuse; hide Xor;
    var R := |ks| - 1;
    var ds := DecryptionKeys(ks);
    var y := Cipher(x, ks);
    var before := Xor(ks[R - i], Rounds(x, ks, R - i));
    var after := Substitute((R - i) % 2, before);
    SubstituteInverse((i - 1) % 2, (R - i) % 2, before);
    DiffuseInvolution(after);
    if i == 1 {
      XorCancelLeft(ks[R], after);
    } else {
      RoundsMirror(x, ks, i - 1);
      var z := Rounds(x, ks, R - i + 1);
      DiffuseXor(ks[R - i + 1], z);
      XorCancelLeft(Diffuse(ks[R - i + 1]), Diffuse(z));
    }
  }

  lemma XorCancelLeft(k: Block, x: Block)
    ensures Xor(k, Xor(k, x)) == x
  {
    hide X;
    forall j | 0 <= j < 16 ensures Xor(k, Xor(k, x))[j] == x[j] {
      XLaws(k[j], x[j], x[j]);
    }
  }

  // The cipher run with the decryption keys undoes the cipher run with the encryption keys,
  // for every block and every even number of rounds.
  lemma DecipherEncipher(x: Block, ks: seq<Block>)
    requires |ks| > 1 && |ks| % 2 == 1
    ensures Cipher(Cipher(x, ks), DecryptionKeys(ks)) == x
  {
    hide Diffuse; hide Xor; hide Substitute;
    var R := |ks| - 1;
    RoundsMirror(x, ks, R);
    DiffuseInvolution(Xor(ks[0], x));
    XorCancelLeft(ks[0], x);
  }

  // ---------- The key schedule ----------

  predicate LegalKey(key: Bytes) { |key| == 16 || |key| == 24 || |key| == 32 }

  function RoundCount(key: Bytes): (R: nat)
    requires LegalKey(key)
    ensures R == 12 || R == 14 || R == 16
  {
    (8 * |key| + 256) / 32
  }

  // The three constants of the key schedule.
  function Constant(q: nat): Block
    requires q < 3
  {
    match q
    case 0 => [0x51, 0x7c, 0xc1, 0xb7, 0x27, 0x22, 0x0a, 0x94, 0xfe, 0x13, 0xab, 0xe8, 0xfa, 0x9a, 0x6e, 0xe0]
    case 1 => [0x6d, 0xb1, 0x4a, 0xcc, 0x9e, 0x21, 0xc8, 0x20, 0xff, 0x28, 0xb1, 0xd5, 0xef, 0x5d, 0xe2, 0xb0]
    case _ => [0xdb, 0x92, 0x37, 0x1d, 0x21, 0x26, 0xe9, 0x70, 0x03, 0x24, 0x97, 0x75, 0x04, 0xe8, 0xc9, 0x0e]
  }

  // The first 128 bits of the key, and the rest padded with zero bits.
  function LeftKey(key: Bytes): Block
    requires LegalKey(key)
  {
    key[..16]
  }

  function RightKey(key: Bytes): Block
    requires LegalKey(key)
  {
    seq(16, j requires 0 <= j < 16 => if 16 + j < |key| then key[16 + j] else 0)
  }

  // One round with the odd (p == 0) or even (p == 1) substitution layer of RFC 5794.
  function Round(p: nat, x: Block, k: Block): Block {
    Diffuse(Substitute(p, Xor(k, x)))
  }

  // The words W1, W2 and W3; W0 is the left key. The constant each starts with depends on
  // the key length.
  function Word1(key: Bytes): Block
    requires LegalKey(key)
  {
    Xor(Round(0, LeftKey(key), Constant(|key| / 8 - 2)), RightKey(key))
  }

  function Word2(key: Bytes): Block
    requires LegalKey(key)
  {
    Xor(Round(1, Word1(key), Constant((|key| / 8 - 1) % 3)), LeftKey(key))
  }

  function Word3(key: Bytes): Block
    requires LegalKey(key)
  {
    Xor(Round(0, Word2(key), Constant((|key| / 8) % 3)), Word1(key))
  }

  function KeyWord(key: Bytes, i: nat): Block
    requires LegalKey(key) && i < 4
  {
    match i
    case 0 => LeftKey(key)
    case 1 => Word1(key)
    case 2 => Word2(key)
    case _ => Word3(key)
  }

  // The low-order end of one byte moved up against the high-order end of the next.
  function JoinBits(lo: bv8, hi: bv8, r: nat): bv8
    requires 0 < r < 8
  {
    X(lo >> r, hi << (8 - r))
  }

  // Byte k of a block rotated right by n bits.
  function RotatedByte(s: Block, n: nat, k: nat): bv8
    requires k < 16
  {
    var q, r := n / 8, n % 8;
    if r == 0 then s[(k - q) % 16]
    else JoinBits(s[(k - q) % 16], s[(k - q - 1) % 16], r)
  }

  function RotateRight(s: Block, n: nat): Block {
    seq(16, k requires 0 <= k < 16 => RotatedByte(s, n, k))
  }

  // Rotation amounts to the right; 67, 97 and 109 are the left rotations 61, 31 and 19.
  function Amount(g: nat): nat {
    match g case 0 => 19 case 1 => 31 case 2 => 67 case 3 => 97 case _ => 109
  }

  function RoundKey(key: Bytes, i: nat): Block
    requires LegalKey(key)
  {
    Xor(KeyWord(key, i % 4), RotateRight(KeyWord(key, (i + 1) % 4), Amount(i / 4)))
  }

  function EncryptionKeys(key: Bytes): (ks: seq<Block>)
    requires LegalKey(key)
    ensures |ks| == RoundCount(key) + 1 && |ks| > 1 && |ks| % 2 == 1
  {
    seq(RoundCount(key) + 1, i requires 0 <= i <= RoundCount(key) => RoundKey(key, i))
  }

  // ARIA deciphers what it enciphers, for every legal key and every block.
  lemma AriaRoundTrip(key: Bytes, x: Block)
    requires LegalKey(key)
    ensures var ks := EncryptionKeys(key);
            |ks| > 1 && Cipher(Cipher(x, ks), DecryptionKeys(ks)) == x
  {
    hide RoundKey;
    DecipherEncipher(x, EncryptionKeys(key));
  }

  // ---------- The rotation is exact on bits ----------

  // Bit p of a block, the most significant bit of byte 0 being bit 0.
  function BitOf(b: bv8, j: nat): bool
    requires j < 8
  {
    match j
    case 0 => b & 0x80 != 0
    case 1 => b & 0x40 != 0
    case 2 => b & 0x20 != 0
    case 3 => b & 0x10 != 0
    case 4 => b & 0x08 != 0
    case 5 => b & 0x04 != 0
    case 6 => b & 0x02 != 0
    case 7 => b & 0x01 != 0
  }

  function BlockBit(s: Block, p: nat): bool
    requires p < 128
  {
    BitOf(s[p / 8], p % 8)
  }

  lemma BitOfRight(b: bv8, r: nat, j: nat)
    requires r < 8 && j < 8
    ensures BitOf(b >> r, j) == (j >= r && BitOf(b, j - r))
  {
    match r case 0 => case 1 => case 2 => case 3 => case 4 => case 5 => case 6 => case 7 =>
  }

  lemma BitOfLeft(b: bv8, r: nat, j: nat)
    requires r < 8 && j < 8
    ensures BitOf(b << r, j) == (j + r < 8 && BitOf(b, j + r))
  {
    match r case 0 => case 1 => case 2 => case 3 => case 4 => case 5 => case 6 => case 7 =>
  }

  lemma BitOfXor(a: bv8, b: bv8, j: nat)
    requires j < 8
    ensures BitOf(X(a, b), j) == (BitOf(a, j) != BitOf(b, j))
  {
    if j < 4 { HighBitOfXor(a, b, j); } else { LowBitOfXor(a, b, j); }
  }

  lemma HighBitOfXor(a: bv8, b: bv8, j: nat)
    requires j < 4
    ensures BitOf(X(a, b), j) == (BitOf(a, j) != BitOf(b, j))
  {
    match j case 0 => case 1 => case 2 => case 3 =>
  }

  lemma LowBitOfXor(a: bv8, b: bv8, j: nat)
    requires 4 <= j < 8
    ensures BitOf(X(a, b), j) == (BitOf(a, j) != BitOf(b, j))
  {
    match j case 4 => case 5 => case 6 => case 7 =>
  }

  lemma JoinedBit(lo: bv8, hi: bv8, r: nat, j: nat)
    requires 0 < r < 8 && j < 8
    ensures BitOf(JoinBits(lo, hi, r), j) == if j >= r then BitOf(lo, j - r) else BitOf(hi, 8 + j - r)
  {
    hide BitOf; hide X;
    BitOfRight(lo, r, j);
    BitOfLeft(hi, 8 - r, j);
    BitOfXor(lo >> r, hi << (8 - r), j);
  }

  // With p = 8k + j and n = 8q + r, the byte and the bit that position p - n falls in.
  lemma RotatedPosition(k: nat, j: nat, q: nat, r: nat)
    requires k < 16 && j < 8 && q < 16 && r < 8
    ensures var c := ((8 * k + j) - (8 * q + r)) % 128;
            if j >= r then c / 8 == (k - q) % 16 && c % 8 == j - r
            else c / 8 == (k - q - 1) % 16 && c % 8 == 8 + j - r
  {
    var d := if j >= r then k - q else k - q - 1;
    var e := if j >= r then j - r else 8 + j - r;
    assert (8 * k + j) - (8 * q + r) == 8 * d + e;
    assert d % 16 == if d < 0 then d + 16 else d;
    assert (8 * d + e) % 128 == 8 * (d % 16) + e;
  }

  // For every amount below 128, bit p of the rotated block is bit p - n modulo 128.
  lemma RotateRightIsExact(s: Block, n: nat, p: nat)
    requires n < 128 && p < 128
    ensures BlockBit(RotateRight(s, n), p) == BlockBit(s, (p - n) % 128)
  {
    hide BitOf; hide JoinBits;
    var k, j, q, r := p / 8, p % 8, n / 8, n % 8;
    RotatedPosition(k, j, q, r);
    assert BlockBit(RotateRight(s, n), p) == BitOf(RotatedByte(s, n, k), j);
    if r != 0 { JoinedBit(s[(k - q) % 16], s[(k - q - 1) % 16], r, j); }
  }
}
