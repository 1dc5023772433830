// The known answers of appendix A of RFC 5794: one block enciphered under a key of each
// length, followed round by round through literal blocks.
module AriaAnswers {
  import opened ByteStrings
  import opened AriaTables
  import opened Aria
  import opened AriaCipher

  // Byte j of a 128-bit number, the most significant first.
  function ByteAt(v: bv128, j: nat): bv8
    requires j < 16
  {
    match j
    case 0 => ((v >> 120) & 0xff) as bv8
    case 1 => ((v >> 112) & 0xff) as bv8
    case 2 => ((v >> 104) & 0xff) as bv8
    case 3 => ((v >> 96) & 0xff) as bv8
    case 4 => ((v >> 88) & 0xff) as bv8
    case 5 => ((v >> 80) & 0xff) as bv8
    case 6 => ((v >> 72) & 0xff) as bv8
    case 7 => ((v >> 64) & 0xff) as bv8
    case 8 => ((v >> 56) & 0xff) as bv8
    case 9 => ((v >> 48) & 0xff) as bv8
    case 10 => ((v >> 40) & 0xff) as bv8
    case 11 => ((v >> 32) & 0xff) as bv8
    case 12 => ((v >> 24) & 0xff) as bv8
    case 13 => ((v >> 16) & 0xff) as bv8
    case 14 => ((v >> 8) & 0xff) as bv8
    case _ => (v & 0xff) as bv8
  }

  // The block a 128-bit number stands for.
  function Big(v: bv128): Block {
    seq(16, j requires 0 <= j < 16 => ByteAt(v, j))
  }

  // Read at fixed places, the bytes are literal terms of v.
  lemma BytesAt(v: bv128)
    ensures ByteAt(v, 0) == ((v >> 120) & 0xff) as bv8
    ensures ByteAt(v, 1) == ((v >> 112) & 0xff) as bv8
    ensures ByteAt(v, 2) == ((v >> 104) & 0xff) as bv8
    ensures ByteAt(v, 3) == ((v >> 96) & 0xff) as bv8
    ensures ByteAt(v, 4) == ((v >> 88) & 0xff) as bv8
    ensures ByteAt(v, 5) == ((v >> 80) & 0xff) as bv8
    ensures ByteAt(v, 6) == ((v >> 72) & 0xff) as bv8
    ensures ByteAt(v, 7) == ((v >> 64) & 0xff) as bv8
    ensures ByteAt(v, 8) == ((v >> 56) & 0xff) as bv8
    ensures ByteAt(v, 9) == ((v >> 48) & 0xff) as bv8
    ensures ByteAt(v, 10) == ((v >> 40) & 0xff) as bv8
    ensures ByteAt(v, 11) == ((v >> 32) & 0xff) as bv8
    ensures ByteAt(v, 12) == ((v >> 24) & 0xff) as bv8
    ensures ByteAt(v, 13) == ((v >> 16) & 0xff) as bv8
    ensures ByteAt(v, 14) == ((v >> 8) & 0xff) as bv8
    ensures ByteAt(v, 15) == (v & 0xff) as bv8
  {}

  predicate SameLow(a: Block, b: Block) {
    a[0] == b[0] && a[1] == b[1] && a[2] == b[2] && a[3] == b[3] &&
    a[4] == b[4] && a[5] == b[5] && a[6] == b[6] && a[7] == b[7]
  }

  predicate SameHigh(a: Block, b: Block) {
    a[8] == b[8] && a[9] == b[9] && a[10] == b[10] && a[11] == b[11] &&
    a[12] == b[12] && a[13] == b[13] && a[14] == b[14] && a[15] == b[15]
  }

  lemma SameBlock(a: Block, b: Block)
    requires SameLow(a, b) && SameHigh(a, b)
    ensures a == b
  {}

  // ---------- One round on 128-bit numbers ----------

  // s is m after the substitution layer of even-numbered rounds.
  predicate Layer0(m: bv128, s: bv128) {
    S1(((m >> 120) & 0xff) as bv8) == ((s >> 120) & 0xff) as bv8 &&
    S2(((m >> 112) & 0xff) as bv8) == ((s >> 112) & 0xff) as bv8 &&
    X1(((m >> 104) & 0xff) as bv8) == ((s >> 104) & 0xff) as bv8 &&
    X2(((m >> 96) & 0xff) as bv8) == ((s >> 96) & 0xff) as bv8 &&
    S1(((m >> 88) & 0xff) as bv8) == ((s >> 88) & 0xff) as bv8 &&
    S2(((m >> 80) & 0xff) as bv8) == ((s >> 80) & 0xff) as bv8 &&
    X1(((m >> 72) & 0xff) as bv8) == ((s >> 72) & 0xff) as bv8 &&
    X2(((m >> 64) & 0xff) as bv8) == ((s >> 64) & 0xff) as bv8 &&
    S1(((m >> 56) & 0xff) as bv8) == ((s >> 56) & 0xff) as bv8 &&
    S2(((m >> 48) & 0xff) as bv8) == ((s >> 48) & 0xff) as bv8 &&
    X1(((m >> 40) & 0xff) as bv8) == ((s >> 40) & 0xff) as bv8 &&
    X2(((m >> 32) & 0xff) as bv8) == ((s >> 32) & 0xff) as bv8 &&
    S1(((m >> 24) & 0xff) as bv8) == ((s >> 24) & 0xff) as bv8 &&
    S2(((m >> 16) & 0xff) as bv8) == ((s >> 16) & 0xff) as bv8 &&
    X1(((m >> 8) & 0xff) as bv8) == ((s >> 8) & 0xff) as bv8 &&
    X2((m & 0xff) as bv8) == (s & 0xff) as bv8
  }

  // s is m after the substitution layer of odd-numbered rounds.
  predicate Layer1(m: bv128, s: bv128) {
    X1(((m >> 120) & 0xff) as bv8) == ((s >> 120) & 0xff) as bv8 &&
    X2(((m >> 112) & 0xff) as bv8) == ((s >> 112) & 0xff) as bv8 &&
    S1(((m >> 104) & 0xff) as bv8) == ((s >> 104) & 0xff) as bv8 &&
    S2(((m >> 96) & 0xff) as bv8) == ((s >> 96) & 0xff) as bv8 &&
    X1(((m >> 88) & 0xff) as bv8) == ((s >> 88) & 0xff) as bv8 &&
    X2(((m >> 80) & 0xff) as bv8) == ((s >> 80) & 0xff) as bv8 &&
    S1(((m >> 72) & 0xff) as bv8) == ((s >> 72) & 0xff) as bv8 &&
    S2(((m >> 64) & 0xff) as bv8) == ((s >> 64) & 0xff) as bv8 &&
    X1(((m >> 56) & 0xff) as bv8) == ((s >> 56) & 0xff) as bv8 &&
    X2(((m >> 48) & 0xff) as bv8) == ((s >> 48) & 0xff) as bv8 &&
    S1(((m >> 40) & 0xff) as bv8) == ((s >> 40) & 0xff) as bv8 &&
    S2(((m >> 32) & 0xff) as bv8) == ((s >> 32) & 0xff) as bv8 &&
    X1(((m >> 24) & 0xff) as bv8) == ((s >> 24) & 0xff) as bv8 &&
    X2(((m >> 16) & 0xff) as bv8) == ((s >> 16) & 0xff) as bv8 &&
    S1(((m >> 8) & 0xff) as bv8) == ((s >> 8) & 0xff) as bv8 &&
    S2((m & 0xff) as bv8) == (s & 0xff) as bv8
  }

  // y is s after the diffusion layer.
  predicate Mixed(s: bv128, y: bv128) {
    var s0, s1 := ((s >> 120) & 0xff) as bv8, ((s >> 112) & 0xff) as bv8;
    var s2, s3 := ((s >> 104) & 0xff) as bv8, ((s >> 96) & 0xff) as bv8;
    var s4, s5 := ((s >> 88) & 0xff) as bv8, ((s >> 80) & 0xff) as bv8;
    var s6, s7 := ((s >> 72) & 0xff) as bv8, ((s >> 64) & 0xff) as bv8;
    var s8, s9 := ((s >> 56) & 0xff) as bv8, ((s >> 48) & 0xff) as bv8;
    var s10, s11 := ((s >> 40) & 0xff) as bv8, ((s >> 32) & 0xff) as bv8;
    var s12, s13 := ((s >> 24) & 0xff) as bv8, ((s >> 16) & 0xff) as bv8;
    var s14, s15 := ((s >> 8) & 0xff) as bv8, (s & 0xff) as bv8;
    ((y >> 120) & 0xff) as bv8 == Xor4(s6, s8, s13, Xor4(s3, s4, s9, s14)) &&
    ((y >> 112) & 0xff) as bv8 == Xor4(s7, s9, s12, Xor4(s2, s5, s8, s15)) &&
    ((y >> 104) & 0xff) as bv8 == Xor4(s4, s10, s15, Xor4(s1, s6, s11, s12)) &&
    ((y >> 96) & 0xff) as bv8 == Xor4(s5, s11, s14, Xor4(s0, s7, s10, s13)) &&
    ((y >> 88) & 0xff) as bv8 == Xor4(s0, s11, s14, Xor4(s2, s5, s8, s15)) &&
    ((y >> 80) & 0xff) as bv8 == Xor4(s1, s10, s15, Xor4(s3, s4, s9, s14)) &&
    ((y >> 72) & 0xff) as bv8 == Xor4(s2, s9, s12, Xor4(s0, s7, s10, s13)) &&
    ((y >> 64) & 0xff) as bv8 == Xor4(s3, s8, s13, Xor4(s1, s6, s11, s12)) &&
    ((y >> 56) & 0xff) as bv8 == Xor4(s1, s4, s15, Xor4(s0, s7, s10, s13)) &&
    ((y >> 48) & 0xff) as bv8 == Xor4(s0, s5, s14, Xor4(s1, s6, s11, s12)) &&
    ((y >> 40) & 0xff) as bv8 == Xor4(s3, s6, s13, Xor4(s2, s5, s8, s15)) &&
    ((y >> 32) & 0xff) as bv8 == Xor4(s2, s7, s12, Xor4(s3, s4, s9, s14)) &&
    ((y >> 24) & 0xff) as bv8 == Xor4(s2, s7, s9, Xor4(s1, s6, s11, s12)) &&
    ((y >> 16) & 0xff) as bv8 == Xor4(s3, s6, s8, Xor4(s0, s7, s10, s13)) &&
    ((y >> 8) & 0xff) as bv8 == Xor4(s0, s5, s11, Xor4(s3, s4, s9, s14)) &&
    (y & 0xff) as bv8 == Xor4(s1, s4, s10, Xor4(s2, s5, s8, s15))
  }

  // A round takes x and the key k to s behind its substitution layer and to y at its end.
  predicate Turns(p: nat, x: bv128, k: bv128, s: bv128, y: bv128) {
    (if p == 0 then Layer0(k ^ x, s) else Layer1(k ^ x, s)) && Mixed(s, y)
  }

  lemma XorAt(a: bv128, b: bv128, j: nat)
    requires j < 16
    ensures ByteAt(a ^ b, j) == X(ByteAt(a, j), ByteAt(b, j))
  {
    match j
    case 0 => case 1 => case 2 => case 3 => case 4 => case 5 => case 6 => case 7 =>
    case 8 => case 9 => case 10 => case 11 => case 12 => case 13 => case 14 => case _ =>
  }

  lemma BigXor(a: bv128, b: bv128)
    ensures Xor(Big(a), Big(b)) == Big(a ^ b)
  {
    hide ByteAt; hide X;
    forall j | 0 <= j < 16 ensures Xor(Big(a), Big(b))[j] == Big(a ^ b)[j] {
      XorAt(a, b, j);
    }
  }

  lemma Layer0At(m: bv128, s: bv128, j: nat)
    requires Layer0(m, s) && j < 16
    ensures S(j % 4, ByteAt(m, j)) == ByteAt(s, j)
  {
    hide S1; hide S2; hide X1; hide X2;
    match j
    case 0 => case 1 => case 2 => case 3 => case 4 => case 5 => case 6 => case 7 =>
    case 8 => case 9 => case 10 => case 11 => case 12 => case 13 => case 14 => case _ =>
  }

  lemma Layer1At(m: bv128, s: bv128, j: nat)
    requires Layer1(m, s) && j < 16
    ensures S((2 + j) % 4, ByteAt(m, j)) == ByteAt(s, j)
  {
    hide S1; hide S2; hide X1; hide X2;
    match j
    case 0 => case 1 => case 2 => case 3 => case 4 => case 5 => case 6 => case 7 =>
    case 8 => case 9 => case 10 => case 11 => case 12 => case 13 => case 14 => case _ =>
  }

  lemma LayerIs(p: nat, m: bv128, s: bv128)
    requires p < 2 && if p == 0 then Layer0(m, s) else Layer1(m, s)
    ensures Substitute(p, Big(m)) == Big(s)
  {
    hide ByteAt; hide S; hide Layer0; hide Layer1;
    forall j | 0 <= j < 16 ensures Substitute(p, Big(m))[j] == Big(s)[j] {
      if p == 0 { Layer0At(m, s, j); } else { Layer1At(m, s, j); }
    }
  }

  lemma MixedIs(s: bv128, y: bv128)
    requires Mixed(s, y)
    ensures Diffuse(Big(s)) == Big(y)
  {
    hide Diffuse; hide ByteAt; hide Xor4;
    BytesAt(s);
    BytesAt(y);
    DiffuseExpanded(Big(s));
    SameBlock(Diffuse(Big(s)), Big(y));
  }

  lemma TurnsIs(p: nat, x: bv128, k: bv128, s: bv128, y: bv128)
    requires p < 2 && Turns(p, x, k, s, y)
    ensures Round(p, Big(x), Big(k)) == Big(y)
  {
    hide Layer0; hide Layer1; hide Mixed; hide Big; hide Substitute; hide Diffuse;
    BigXor(k, x);
    LayerIs(p, k ^ x, s);
    MixedIs(s, y);
  }

  // ---------- The rotations of the key schedule on 128-bit numbers ----------

  // Byte k of a rotated block, with the places of its two source bytes worked out.
  lemma RotatedIs(s: Block, n: nat, k: nat, lo: nat, hi: nat, r: nat)
    requires k < 16 && r == n % 8 && r > 0 && lo == (k - n / 8) % 16 && hi == (k - n / 8 - 1) % 16
    ensures RotateRight(s, n)[k] == JoinBits(s[lo], s[hi], r)
  {
    hide JoinBits;
  }

  lemma Turned19Bytes(v: bv128)
    ensures ByteAt((v >> 19) | (v << 109), 0) == JoinBits(ByteAt(v, 14), ByteAt(v, 13), 3)
    ensures ByteAt((v >> 19) | (v << 109), 1) == JoinBits(ByteAt(v, 15), ByteAt(v, 14), 3)
    ensures ByteAt((v >> 19) | (v << 109), 2) == JoinBits(ByteAt(v, 0), ByteAt(v, 15), 3)
    ensures ByteAt((v >> 19) | (v << 109), 3) == JoinBits(ByteAt(v, 1), ByteAt(v, 0), 3)
    ensures ByteAt((v >> 19) | (v << 109), 4) == JoinBits(ByteAt(v, 2), ByteAt(v, 1), 3)
    ensures ByteAt((v >> 19) | (v << 109), 5) == JoinBits(ByteAt(v, 3), ByteAt(v, 2), 3)
    ensures ByteAt((v >> 19) | (v << 109), 6) == JoinBits(ByteAt(v, 4), ByteAt(v, 3), 3)
    ensures ByteAt((v >> 19) | (v << 109), 7) == JoinBits(ByteAt(v, 5), ByteAt(v, 4), 3)
    ensures ByteAt((v >> 19) | (v << 109), 8) == JoinBits(ByteAt(v, 6), ByteAt(v, 5), 3)
    ensures ByteAt((v >> 19) | (v << 109), 9) == JoinBits(ByteAt(v, 7), ByteAt(v, 6), 3)
    ensures ByteAt((v >> 19) | (v << 109), 10) == JoinBits(ByteAt(v, 8), ByteAt(v, 7), 3)
    ensures ByteAt((v >> 19) | (v << 109), 11) == JoinBits(ByteAt(v, 9), ByteAt(v, 8), 3)
    ensures ByteAt((v >> 19) | (v << 109), 12) == JoinBits(ByteAt(v, 10), ByteAt(v, 9), 3)
    ensures ByteAt((v >> 19) | (v << 109), 13) == JoinBits(ByteAt(v, 11), ByteAt(v, 10), 3)
    ensures ByteAt((v >> 19) | (v << 109), 14) == JoinBits(ByteAt(v, 12), ByteAt(v, 11), 3)
    ensures ByteAt((v >> 19) | (v << 109), 15) == JoinBits(ByteAt(v, 13), ByteAt(v, 12), 3)
  {
    hide ByteAt;
    BytesAt(v);
    BytesAt((v >> 19) | (v << 109));
  }

  lemma Turned19(v: bv128)
    ensures RotateRight(Big(v), 19) == Big((v >> 19) | (v << 109))
  {
    hide RotateRight; hide ByteAt; hide JoinBits;
    var s := Big(v);
    Turned19Bytes(v);
    RotatedIs(s, 19, 0, 14, 13, 3); RotatedIs(s, 19, 1, 15, 14, 3); RotatedIs(s, 19, 2, 0, 15, 3);
    RotatedIs(s, 19, 3, 1, 0, 3); RotatedIs(s, 19, 4, 2, 1, 3); RotatedIs(s, 19, 5, 3, 2, 3);
    RotatedIs(s, 19, 6, 4, 3, 3); RotatedIs(s, 19, 7, 5, 4, 3); RotatedIs(s, 19, 8, 6, 5, 3);
    RotatedIs(s, 19, 9, 7, 6, 3); RotatedIs(s, 19, 10, 8, 7, 3); RotatedIs(s, 19, 11, 9, 8, 3);
    RotatedIs(s, 19, 12, 10, 9, 3); RotatedIs(s, 19, 13, 11, 10, 3); RotatedIs(s, 19, 14, 12, 11, 3);
    RotatedIs(s, 19, 15, 13, 12, 3);
    SameBlock(RotateRight(s, 19), Big((v >> 19) | (v << 109)));
  }

  lemma Turned31Bytes(v: bv128)
    ensures ByteAt((v >> 31) | (v << 97), 0) == JoinBits(ByteAt(v, 13), ByteAt(v, 12), 7)
    ensures ByteAt((v >> 31) | (v << 97), 1) == JoinBits(ByteAt(v, 14), ByteAt(v, 13), 7)
    ensures ByteAt((v >> 31) | (v << 97), 2) == JoinBits(ByteAt(v, 15), ByteAt(v, 14), 7)
    ensures ByteAt((v >> 31) | (v << 97), 3) == JoinBits(ByteAt(v, 0), ByteAt(v, 15), 7)
    ensures ByteAt((v >> 31) | (v << 97), 4) == JoinBits(ByteAt(v, 1), ByteAt(v, 0), 7)
    ensures ByteAt((v >> 31) | (v << 97), 5) == JoinBits(ByteAt(v, 2), ByteAt(v, 1), 7)
    ensures ByteAt((v >> 31) | (v << 97), 6) == JoinBits(ByteAt(v, 3), ByteAt(v, 2), 7)
    ensures ByteAt((v >> 31) | (v << 97), 7) == JoinBits(ByteAt(v, 4), ByteAt(v, 3), 7)
    ensures ByteAt((v >> 31) | (v << 97), 8) == JoinBits(ByteAt(v, 5), ByteAt(v, 4), 7)
    ensures ByteAt((v >> 31) | (v << 97), 9) == JoinBits(ByteAt(v, 6), ByteAt(v, 5), 7)
    ensures ByteAt((v >> 31) | (v << 97), 10) == JoinBits(ByteAt(v, 7), ByteAt(v, 6), 7)
    ensures ByteAt((v >> 31) | (v << 97), 11) == JoinBits(ByteAt(v, 8), ByteAt(v, 7), 7)
    ensures ByteAt((v >> 31) | (v << 97), 12) == JoinBits(ByteAt(v, 9), ByteAt(v, 8), 7)
    ensures ByteAt((v >> 31) | (v << 97), 13) == JoinBits(ByteAt(v, 10), ByteAt(v, 9), 7)
    ensures ByteAt((v >> 31) | (v << 97), 14) == JoinBits(ByteAt(v, 11), ByteAt(v, 10), 7)
    ensures ByteAt((v >> 31) | (v << 97), 15) == JoinBits(ByteAt(v, 12), ByteAt(v, 11), 7)
  {
    hide ByteAt;
    BytesAt(v);
    BytesAt((v >> 31) | (v << 97));
  }

  lemma Turned31(v: bv128)
    ensures RotateRight(Big(v), 31) == Big((v >> 31) | (v << 97))
  {
    hide RotateRight; hide ByteAt; hide JoinBits;
    var s := Big(v);
    Turned31Bytes(v);
    RotatedIs(s, 31, 0, 13, 12, 7); RotatedIs(s, 31, 1, 14, 13, 7); RotatedIs(s, 31, 2, 15, 14, 7);
    RotatedIs(s, 31, 3, 0, 15, 7); RotatedIs(s, 31, 4, 1, 0, 7); RotatedIs(s, 31, 5, 2, 1, 7);
    RotatedIs(s, 31, 6, 3, 2, 7); RotatedIs(s, 31, 7, 4, 3, 7); RotatedIs(s, 31, 8, 5, 4, 7);
    RotatedIs(s, 31, 9, 6, 5, 7); RotatedIs(s, 31, 10, 7, 6, 7); RotatedIs(s, 31, 11, 8, 7, 7);
    RotatedIs(s, 31, 12, 9, 8, 7); RotatedIs(s, 31, 13, 10, 9, 7); RotatedIs(s, 31, 14, 11, 10, 7);
    RotatedIs(s, 31, 15, 12, 11, 7);
    SameBlock(RotateRight(s, 31), Big((v >> 31) | (v << 97)));
  }

  lemma Turned67Bytes(v: bv128)
    ensures ByteAt((v >> 67) | (v << 61), 0) == JoinBits(ByteAt(v, 8), ByteAt(v, 7), 3)
    ensures ByteAt((v >> 67) | (v << 61), 1) == JoinBits(ByteAt(v, 9), ByteAt(v, 8), 3)
    ensures ByteAt((v >> 67) | (v << 61), 2) == JoinBits(ByteAt(v, 10), ByteAt(v, 9), 3)
    ensures ByteAt((v >> 67) | (v << 61), 3) == JoinBits(ByteAt(v, 11), ByteAt(v, 10), 3)
    ensures ByteAt((v >> 67) | (v << 61), 4) == JoinBits(ByteAt(v, 12), ByteAt(v, 11), 3)
    ensures ByteAt((v >> 67) | (v << 61), 5) == JoinBits(ByteAt(v, 13), ByteAt(v, 12), 3)
    ensures ByteAt((v >> 67) | (v << 61), 6) == JoinBits(ByteAt(v, 14), ByteAt(v, 13), 3)
    ensures ByteAt((v >> 67) | (v << 61), 7) == JoinBits(ByteAt(v, 15), ByteAt(v, 14), 3)
    ensures ByteAt((v >> 67) | (v << 61), 8) == JoinBits(ByteAt(v, 0), ByteAt(v, 15), 3)
    ensures ByteAt((v >> 67) | (v << 61), 9) == JoinBits(ByteAt(v, 1), ByteAt(v, 0), 3)
    ensures ByteAt((v >> 67) | (v << 61), 10) == JoinBits(ByteAt(v, 2), ByteAt(v, 1), 3)
    ensures ByteAt((v >> 67) | (v << 61), 11) == JoinBits(ByteAt(v, 3), ByteAt(v, 2), 3)
    ensures ByteAt((v >> 67) | (v << 61), 12) == JoinBits(ByteAt(v, 4), ByteAt(v, 3), 3)
    ensures ByteAt((v >> 67) | (v << 61), 13) == JoinBits(ByteAt(v, 5), ByteAt(v, 4), 3)
    ensures ByteAt((v >> 67) | (v << 61), 14) == JoinBits(ByteAt(v, 6), ByteAt(v, 5), 3)
    ensures ByteAt((v >> 67) | (v << 61), 15) == JoinBits(ByteAt(v, 7), ByteAt(v, 6), 3)
  {
    hide ByteAt;
    BytesAt(v);
    BytesAt((v >> 67) | (v << 61));
  }

  lemma Turned67(v: bv128)
    ensures RotateRight(Big(v), 67) == Big((v >> 67) | (v << 61))
  {
    hide RotateRight; hide ByteAt; hide JoinBits;
    var s := Big(v);
    Turned67Bytes(v);
    RotatedIs(s, 67, 0, 8, 7, 3); RotatedIs(s, 67, 1, 9, 8, 3); RotatedIs(s, 67, 2, 10, 9, 3);
    RotatedIs(s, 67, 3, 11, 10, 3); RotatedIs(s, 67, 4, 12, 11, 3); RotatedIs(s, 67, 5, 13, 12, 3);
    RotatedIs(s, 67, 6, 14, 13, 3); RotatedIs(s, 67, 7, 15, 14, 3); RotatedIs(s, 67, 8, 0, 15, 3);
    RotatedIs(s, 67, 9, 1, 0, 3); RotatedIs(s, 67, 10, 2, 1, 3); RotatedIs(s, 67, 11, 3, 2, 3);
    RotatedIs(s, 67, 12, 4, 3, 3); RotatedIs(s, 67, 13, 5, 4, 3); RotatedIs(s, 67, 14, 6, 5, 3);
    RotatedIs(s, 67, 15, 7, 6, 3);
    SameBlock(RotateRight(s, 67), Big((v >> 67) | (v << 61)));
  }

  lemma Turned97Bytes(v: bv128)
    ensures ByteAt((v >> 97) | (v << 31), 0) == JoinBits(ByteAt(v, 4), ByteAt(v, 3), 1)
    ensures ByteAt((v >> 97) | (v << 31), 1) == JoinBits(ByteAt(v, 5), ByteAt(v, 4), 1)
    ensures ByteAt((v >> 97) | (v << 31), 2) == JoinBits(ByteAt(v, 6), ByteAt(v, 5), 1)
    ensures ByteAt((v >> 97) | (v << 31), 3) == JoinBits(ByteAt(v, 7), ByteAt(v, 6), 1)
    ensures ByteAt((v >> 97) | (v << 31), 4) == JoinBits(ByteAt(v, 8), ByteAt(v, 7), 1)
    ensures ByteAt((v >> 97) | (v << 31), 5) == JoinBits(ByteAt(v, 9), ByteAt(v, 8), 1)
    ensures ByteAt((v >> 97) | (v << 31), 6) == JoinBits(ByteAt(v, 10), ByteAt(v, 9), 1)
    ensures ByteAt((v >> 97) | (v << 31), 7) == JoinBits(ByteAt(v, 11), ByteAt(v, 10), 1)
    ensures ByteAt((v >> 97) | (v << 31), 8) == JoinBits(ByteAt(v, 12), ByteAt(v, 11), 1)
    ensures ByteAt((v >> 97) | (v << 31), 9) == JoinBits(ByteAt(v, 13), ByteAt(v, 12), 1)
    ensures ByteAt((v >> 97) | (v << 31), 10) == JoinBits(ByteAt(v, 14), ByteAt(v, 13), 1)
    ensures ByteAt((v >> 97) | (v << 31), 11) == JoinBits(ByteAt(v, 15), ByteAt(v, 14), 1)
    ensures ByteAt((v >> 97) | (v << 31), 12) == JoinBits(ByteAt(v, 0), ByteAt(v, 15), 1)
    ensures ByteAt((v >> 97) | (v << 31), 13) == JoinBits(ByteAt(v, 1), ByteAt(v, 0), 1)
    ensures ByteAt((v >> 97) | (v << 31), 14) == JoinBits(ByteAt(v, 2), ByteAt(v, 1), 1)
    ensures ByteAt((v >> 97) | (v << 31), 15) == JoinBits(ByteAt(v, 3), ByteAt(v, 2), 1)
  {
    hide ByteAt;
    BytesAt(v);
    BytesAt((v >> 97) | (v << 31));
  }

  lemma Turned97(v: bv128)
    ensures RotateRight(Big(v), 97) == Big((v >> 97) | (v << 31))
  {
    hide RotateRight; hide ByteAt; hide JoinBits;
    var s := Big(v);
    Turned97Bytes(v);
    RotatedIs(s, 97, 0, 4, 3, 1); RotatedIs(s, 97, 1, 5, 4, 1); RotatedIs(s, 97, 2, 6, 5, 1);
    RotatedIs(s, 97, 3, 7, 6, 1); RotatedIs(s, 97, 4, 8, 7, 1); RotatedIs(s, 97, 5, 9, 8, 1);
    RotatedIs(s, 97, 6, 10, 9, 1); RotatedIs(s, 97, 7, 11, 10, 1); RotatedIs(s, 97, 8, 12, 11, 1);
    RotatedIs(s, 97, 9, 13, 12, 1); RotatedIs(s, 97, 10, 14, 13, 1); RotatedIs(s, 97, 11, 15, 14, 1);
    RotatedIs(s, 97, 12, 0, 15, 1); RotatedIs(s, 97, 13, 1, 0, 1); RotatedIs(s, 97, 14, 2, 1, 1);
    RotatedIs(s, 97, 15, 3, 2, 1);
    SameBlock(RotateRight(s, 97), Big((v >> 97) | (v << 31)));
  }

  lemma Turned109Bytes(v: bv128)
    ensures ByteAt((v >> 109) | (v << 19), 0) == JoinBits(ByteAt(v, 3), ByteAt(v, 2), 5)
    ensures ByteAt((v >> 109) | (v << 19), 1) == JoinBits(ByteAt(v, 4), ByteAt(v, 3), 5)
    ensures ByteAt((v >> 109) | (v << 19), 2) == JoinBits(ByteAt(v, 5), ByteAt(v, 4), 5)
    ensures ByteAt((v >> 109) | (v << 19), 3) == JoinBits(ByteAt(v, 6), ByteAt(v, 5), 5)
    ensures ByteAt((v >> 109) | (v << 19), 4) == JoinBits(ByteAt(v, 7), ByteAt(v, 6), 5)
    ensures ByteAt((v >> 109) | (v << 19), 5) == JoinBits(ByteAt(v, 8), ByteAt(v, 7), 5)
    ensures ByteAt((v >> 109) | (v << 19), 6) == JoinBits(ByteAt(v, 9), ByteAt(v, 8), 5)
    ensures ByteAt((v >> 109) | (v << 19), 7) == JoinBits(ByteAt(v, 10), ByteAt(v, 9), 5)
    ensures ByteAt((v >> 109) | (v << 19), 8) == JoinBits(ByteAt(v, 11), ByteAt(v, 10), 5)
    ensures ByteAt((v >> 109) | (v << 19), 9) == JoinBits(ByteAt(v, 12), ByteAt(v, 11), 5)
    ensures ByteAt((v >> 109) | (v << 19), 10) == JoinBits(ByteAt(v, 13), ByteAt(v, 12), 5)
    ensures ByteAt((v >> 109) | (v << 19), 11) == JoinBits(ByteAt(v, 14), ByteAt(v, 13), 5)
    ensures ByteAt((v >> 109) | (v << 19), 12) == JoinBits(ByteAt(v, 15), ByteAt(v, 14), 5)
    ensures ByteAt((v >> 109) | (v << 19), 13) == JoinBits(ByteAt(v, 0), ByteAt(v, 15), 5)
    ensures ByteAt((v >> 109) | (v << 19), 14) == JoinBits(ByteAt(v, 1), ByteAt(v, 0), 5)
    ensures ByteAt((v >> 109) | (v << 19), 15) == JoinBits(ByteAt(v, 2), ByteAt(v, 1), 5)
  {
    hide ByteAt;
    BytesAt(v);
    BytesAt((v >> 109) | (v << 19));
  }

  lemma Turned109(v: bv128)
    ensures RotateRight(Big(v), 109) == Big((v >> 109) | (v << 19))
  {
    hide RotateRight; hide ByteAt; hide JoinBits;
    var s := Big(v);
    Turned109Bytes(v);
    RotatedIs(s, 109, 0, 3, 2, 5); RotatedIs(s, 109, 1, 4, 3, 5); RotatedIs(s, 109, 2, 5, 4, 5);
    RotatedIs(s, 109, 3, 6, 5, 5); RotatedIs(s, 109, 4, 7, 6, 5); RotatedIs(s, 109, 5, 8, 7, 5);
    RotatedIs(s, 109, 6, 9, 8, 5); RotatedIs(s, 109, 7, 10, 9, 5); RotatedIs(s, 109, 8, 11, 10, 5);
    RotatedIs(s, 109, 9, 12, 11, 5); RotatedIs(s, 109, 10, 13, 12, 5); RotatedIs(s, 109, 11, 14, 13, 5);
    RotatedIs(s, 109, 12, 15, 14, 5); RotatedIs(s, 109, 13, 0, 15, 5); RotatedIs(s, 109, 14, 1, 0, 5);
    RotatedIs(s, 109, 15, 2, 1, 5);
    SameBlock(RotateRight(s, 109), Big((v >> 109) | (v << 19)));
  }

  // v rotated right by the amount that goes with round keys 4g to 4g + 3.
  function Turned(g: nat, v: bv128): bv128 {
    match g
    case 0 => (v >> 19) | (v << 109)
    case 1 => (v >> 31) | (v << 97)
    case 2 => (v >> 67) | (v << 61)
    case 3 => (v >> 97) | (v << 31)
    case _ => (v >> 109) | (v << 19)
  }

  lemma TurnedIs(g: nat, v: bv128)
    ensures RotateRight(Big(v), Amount(g)) == Big(Turned(g, v))
  {
    hide RotateRight; hide Big;
    match g
    case 0 => Turned19(v);
    case 1 => Turned31(v);
    case 2 => Turned67(v);
    case 3 => Turned97(v);
    case _ => Turned109(v);
  }

  // ---------- What the schedule and the rounds have reached ----------

  // The plaintext of the appendix, and its keys: as many of the bytes 00 01 02 and so on as
  // the key is long.
  const PLAIN: Block := Big(0x00112233445566778899aabbccddeeff)

  function TestKey(n: nat): (key: Bytes)
    requires n <= 32
    ensures |key| == n
  {
    (Big(0x000102030405060708090a0b0c0d0e0f) + Big(0x101112131415161718191a1b1c1d1e1f))[..n]
  }

  predicate Sized(n: nat) { n == 16 || n == 24 || n == 32 }

  predicate WordAt(n: nat, i: nat, w: bv128) {
    Sized(n) && i < 4 && KeyWord(TestKey(n), i) == Big(w)
  }

  predicate KeyAt(n: nat, i: nat, k: bv128) {
    Sized(n) && RoundKey(TestKey(n), i) == Big(k)
  }

  // The block is x after i rounds.
  predicate At(n: nat, i: nat, x: bv128) {
    Sized(n) && i <= RoundCount(TestKey(n)) && Rounds(PLAIN, EncryptionKeys(TestKey(n)), i) == Big(x)
  }

  lemma Constant0()
    ensures Constant(0) == Big(0x517cc1b7_27220a94_fe13abe8_fa9a6ee0)
  {
    hide ByteAt;
    BytesAt(0x517cc1b7_27220a94_fe13abe8_fa9a6ee0);
    SameBlock(Constant(0), Big(0x517cc1b7_27220a94_fe13abe8_fa9a6ee0));
  }

  lemma Constant1()
    ensures Constant(1) == Big(0x6db14acc_9e21c820_ff28b1d5_ef5de2b0)
  {
    hide ByteAt;
    BytesAt(0x6db14acc_9e21c820_ff28b1d5_ef5de2b0);
    SameBlock(Constant(1), Big(0x6db14acc_9e21c820_ff28b1d5_ef5de2b0));
  }

  lemma Constant2()
    ensures Constant(2) == Big(0xdb92371d_2126e970_03249775_04e8c90e)
  {
    hide ByteAt;
    BytesAt(0xdb92371d_2126e970_03249775_04e8c90e);
    SameBlock(Constant(2), Big(0xdb92371d_2126e970_03249775_04e8c90e));
  }

  // The three definitions of the words as one.
  lemma WordFollows(key: Bytes, i: nat)
    requires LegalKey(key) && i < 3
    ensures KeyWord(key, i + 1)
         == Xor(Round(i % 2, KeyWord(key, i), Constant((|key| / 8 + 1 + i) % 3)),
                if i == 0 then RightKey(key) else KeyWord(key, i - 1))
  {
    hide Round; hide Xor; hide Constant; hide LeftKey; hide RightKey;
    match i case 0 => case 1 => case _ =>
  }

  // One word of the schedule from the one before: a round from w with constant c, and
  // then the exclusive or with v, the right key or the word before w.
  lemma NextWord(n: nat, i: nat, w: bv128, c: bv128, s: bv128, y: bv128, v: bv128)
    requires i < 3 && WordAt(n, i, w) && Constant((n / 8 + 1 + i) % 3) == Big(c)
    requires if i == 0 then RightKey(TestKey(n)) == Big(v) else WordAt(n, i - 1, v)
    requires Turns(i % 2, w, c, s, y)
    ensures WordAt(n, i + 1, y ^ v)
  {
    hide Turns; hide Big; hide Round; hide Xor; hide Constant; hide TestKey; hide KeyWord; hide RightKey;
    TurnsIs(i % 2, w, c, s, y);
    BigXor(y, v);
    WordFollows(TestKey(n), i);
  }

  // A round key from two words, t being the second one rotated.
  lemma KeyFrom(n: nat, i: nat, a: bv128, b: bv128, t: bv128, k: bv128)
    requires WordAt(n, i % 4, a) && WordAt(n, (i + 1) % 4, b) && t == Turned(i / 4, b) && k == a ^ t
    ensures KeyAt(n, i, k)
  {
    hide Big; hide Turned; hide Xor; hide RotateRight; hide KeyWord; hide TestKey; hide Amount;
    TurnedIs(i / 4, b);
    BigXor(a, t);
  }

  lemma NextRound(n: nat, i: nat, x: bv128, k: bv128, s: bv128, y: bv128)
    requires At(n, i, x) && KeyAt(n, i, k) && i < n / 4 + 8
    requires Turns(i % 2, x, k, s, y)
    ensures At(n, i + 1, y)
  {
    hide Turns; hide Big; hide Rounds; hide Substitute; hide Diffuse; hide Xor; hide TestKey; hide RoundKey;
    TurnsIs(i % 2, x, k, s, y);
    RoundsNext(PLAIN, EncryptionKeys(TestKey(n)), i);
  }

  // Round i, in a form that matches what At and KeyAt say.
  predicate TurnsAt(i: nat, x: bv128, k: bv128, s: bv128, y: bv128) { Turns(i % 2, x, k, s, y) }

  // All rounds that are known to turn one block into the next follow each other.
  lemma Follow(n: nat)
    requires Sized(n)
    ensures At(n, 0, 0x00112233445566778899aabbccddeeff)
    ensures forall i: nat, x: bv128, k: bv128, s: bv128, y: bv128 ::
              TurnsAt(i, x, k, s, y) && At(n, i, x) && KeyAt(n, i, k) && i < n / 4 + 8 ==> At(n, i + 1, y)
  {
    hide KeyAt; hide Turns; hide Big; hide TestKey;
    forall i: nat, x: bv128, k: bv128, s: bv128, y: bv128
      | TurnsAt(i, x, k, s, y) && At(n, i, x) && KeyAt(n, i, k) && i < n / 4 + 8
      ensures At(n, i + 1, y)
    {
      NextRound(n, i, x, k, s, y);
    }
  }

  // The last round leaves out the diffusion layer, which diffusing its end once more undoes.
  lemma Last(n: nat, x: bv128, s: bv128, k: bv128)
    requires Sized(n) && At(n, n / 4 + 8, x) && KeyAt(n, n / 4 + 8, k) && Mixed(x, s)
    ensures Cipher(PLAIN, EncryptionKeys(TestKey(n))) == Big(k ^ s)
  {
    hide Mixed; hide Big; hide Rounds; hide Diffuse; hide Xor; hide TestKey; hide RoundKey;
    MixedIs(x, s);
    BigXor(k, s);
  }

  // ---------- The three runs ----------

  lemma Words16Start()
    ensures WordAt(16, 0, 0x000102030405060708090a0b0c0d0e0f)
    ensures RightKey(TestKey(16)) == Big(0x00000000000000000000000000000000)
  {}

  lemma Word16At1()
    ensures WordAt(16, 1, 0x2afbea741e1746dd55c63ba1afcea0a5)
  {
    hide ByteAt; hide WordAt; hide RightKey; hide TestKey; hide Constant;
    Words16Start(); Constant0();
    NextWord(16, 0, 0x000102030405060708090a0b0c0d0e0f, 0x517cc1b727220a94fe13abe8fa9a6ee0,
      0xd1b933142669815c422ef194426590d3, 0x2afbea741e1746dd55c63ba1afcea0a5, 0x00000000000000000000000000000000);
  }

  lemma Word16At2()
    ensures WordAt(16, 2, 0x7c8578018bb127e02dfe4e78c288e33c)
  {
    hide ByteAt; hide WordAt; hide RightKey; hide TestKey; hide Constant;
    Words16Start(); Word16At1(); Constant1();
    NextWord(16, 1, 0x2afbea741e1746dd55c63ba1afcea0a5, 0x6db14acc9e21c820ff28b1d5ef5de2b0,
      0x1606e0703a6419ba623d7ec4725c2c97, 0x7c847a028fb421e725f74473ce85ed33, 0x000102030405060708090a0b0c0d0e0f);
  }

  lemma Word16At3()
    ensures WordAt(16, 3, 0x6785b52b74da46bf181054082763ff6d)
  {
    hide ByteAt; hide WordAt; hide RightKey; hide TestKey; hide Constant;
    Words16Start(); Word16At1(); Word16At2(); Constant2();
    NextWord(16, 2, 0x7c8578018bb127e02dfe4e78c288e33c, 0xdb92371d2126e9700324977504e8c90e,
      0x5c2b92d6ac65ece03180e509b4ff956c, 0x4d7e5f5f6acd00624dd66fa988ad5fc8, 0x2afbea741e1746dd55c63ba1afcea0a5);
  }

  lemma Round16At0() ensures TurnsAt(0,
    0x00112233445566778899aabbccddeeff, 0xd415a75c794b85c5e0d2a0b3cb793bf6,
    0x489467d927594dd54595a350c5a9b539, 0x7fc7f12befd0a0791de87fa96b469f52) {}
  lemma Round16At1() ensures TurnsAt(1,
    0x7fc7f12befd0a0791de87fa96b469f52, 0x369c65e4b11777ab713a3e1e6601b8f4,
    0xa4e222da9d5b0ea2b8c98334f358ccd4, 0xac8de17e49f7c5117618993162b189e9) {}
  lemma Round16At2() ensures TurnsAt(2,
    0xac8de17e49f7c5117618993162b189e9, 0x0368d4f13d14497b6529ad7ac809e7d0,
    0x795ad99a9233f00a7d7328c3ac7045aa, 0xc3e8d59ec2e62d5249ca2741653cb7dd) {}
  lemma Round16At3() ensures TurnsAt(3,
    0xc3e8d59ec2e62d5249ca2741653cb7dd, 0xc644552b549a263fb8d0b50906229eec,
    0x3644cdf235ee2bca2bfb4f8d00c4a573, 0x5d4aebb165e141ff759f669e1e85cc45) {}
  lemma Round16At4() ensures TurnsAt(4,
    0x5d4aebb165e141ff759f669e1e85cc45, 0x5f9c434951f2d2ef342787b1a781794c,
    0x771c6ff718cb223e8370e04d5694d239, 0x7806e469f68874c5004b5f4a046bbcfa) {}
  lemma Round16At5() ensures TurnsAt(5,
    0x7806e469f68874c5004b5f4a046bbcfa, 0xafea2c0ce71db6de42a47461f4323c54,
    0x0d80e821e34b2503f6d3f1ae171ecd9d, 0x110f93c9a630cdd51f97d2202413345a) {}
  lemma Round16At6() ensures TurnsAt(6,
    0x110f93c9a630cdd51f97d2202413345a, 0x324286db44ba4db6c44ac306f2a84b2c,
    0x262f2f5e98f13a2cb944e377f68a6bad, 0xe054428ef088fef97928241cd3be499e) {}
  lemma Round16At7() ensures TurnsAt(7,
    0xe054428ef088fef97928241cd3be499e, 0x7f9fa93574d842b9101a58063771eb7b,
    0x6e13e98a4f8c652de46c102eae453a5a, 0x5734f38ea1ca3ddd102e71f95e1d5f97) {}
  lemma Round16At8() ensures TurnsAt(8,
    0x5734f38ea1ca3ddd102e71f95e1d5f97, 0xaab9c57731fcd213ad5677458fcfe6d4,
    0x541f244c6085614e7a07a5183ea2dbaf, 0x4903325be3e500cccd52fba4354a39ae) {}
  lemma Round16At9() ensures TurnsAt(9,
    0x4903325be3e500cccd52fba4354a39ae, 0x2f4423bb06465abada5694a19eb88459,
    0xd35882902ababe428787a8c20eb57af8, 0xcb8c508e2c4f87880639dc896d25ec9d) {}
  lemma Round16At10() ensures TurnsAt(10,
    0xcb8c508e2c4f87880639dc896d25ec9d, 0x9f8772808f5d580d810ef8ddac13abeb,
    0x204694620a64ef3617e4a602788516ad, 0xe7e0d2457ed73d23d481424095afdca0) {}
  lemma Round16At11() ensures TurnsAt(11,
    0xe7e0d2457ed73d23d481424095afdca0, 0x8684946a155be77ef810744847e35fad,
    0xd8125abb058257a4424705627f35ec4d, 0x354b1540814f2e9416ee0e94e1e22dc5) {}

  // The answer for the 16-byte key.
  lemma Answer16()
    ensures Cipher(PLAIN, EncryptionKeys(TestKey(16))) == Big(0xd718fbd6ab644c739da95f3be6451778)
  {
    hide At; hide KeyAt; hide WordAt; hide TurnsAt; hide Big; hide Cipher;
    Words16Start(); Word16At1(); Word16At2(); Word16At3();
    var w0 := 0x000102030405060708090a0b0c0d0e0f;
    var w1 := 0x2afbea741e1746dd55c63ba1afcea0a5;
    var w2 := 0x7c8578018bb127e02dfe4e78c288e33c;
    var w3 := 0x6785b52b74da46bf181054082763ff6d;
    KeyFrom(16, 0, w0, w1, Turned(0, w1), 0xd415a75c794b85c5e0d2a0b3cb793bf6);
    KeyFrom(16, 1, w1, w2, Turned(0, w2), 0x369c65e4b11777ab713a3e1e6601b8f4);
    KeyFrom(16, 2, w2, w3, Turned(0, w3), 0x0368d4f13d14497b6529ad7ac809e7d0);
    KeyFrom(16, 3, w3, w0, Turned(0, w0), 0xc644552b549a263fb8d0b50906229eec);
    KeyFrom(16, 4, w0, w1, Turned(1, w1), 0x5f9c434951f2d2ef342787b1a781794c);
    KeyFrom(16, 5, w1, w2, Turned(1, w2), 0xafea2c0ce71db6de42a47461f4323c54);
    KeyFrom(16, 6, w2, w3, Turned(1, w3), 0x324286db44ba4db6c44ac306f2a84b2c);
    KeyFrom(16, 7, w3, w0, Turned(1, w0), 0x7f9fa93574d842b9101a58063771eb7b);
    KeyFrom(16, 8, w0, w1, Turned(2, w1), 0xaab9c57731fcd213ad5677458fcfe6d4);
    KeyFrom(16, 9, w1, w2, Turned(2, w2), 0x2f4423bb06465abada5694a19eb88459);
    KeyFrom(16, 10, w2, w3, Turned(2, w3), 0x9f8772808f5d580d810ef8ddac13abeb);
    KeyFrom(16, 11, w3, w0, Turned(2, w0), 0x8684946a155be77ef810744847e35fad);
    KeyFrom(16, 12, w0, w1, Turned(3, w1), 0x0f0aa16daee61bd7dfee5a599970fb35);
    Follow(16);
    Round16At0(); Round16At1(); Round16At2(); Round16At3(); Round16At4(); Round16At5();
    Round16At6(); Round16At7(); Round16At8(); Round16At9(); Round16At10(); Round16At11();
    Last(16, 0x354b1540814f2e9416ee0e94e1e22dc5, 0xd8125abb058257a4424705627f35ec4d,
      0x0f0aa16daee61bd7dfee5a599970fb35);
  }

  lemma Words24Start()
    ensures WordAt(24, 0, 0x000102030405060708090a0b0c0d0e0f)
    ensures RightKey(TestKey(24)) == Big(0x10111213141516170000000000000000)
  {}

  lemma Word24At1()
    ensures WordAt(24, 1, 0xe48c52301e91d991b649ed7bb7cde8ad)
  {
    hide ByteAt; hide WordAt; hide RightKey; hide TestKey; hide Constant;
    Words24Start(); Constant1();
    NextWord(24, 0, 0x000102030405060708090a0b0c0d0e0f, 0x6db14acc9e21c820ff28b1d5ef5de2b0,
      0x3ca7d445b855ecc66806fef9110883a5, 0xf49d40230a84cf86b649ed7bb7cde8ad, 0x10111213141516170000000000000000);
  }

  lemma Word24At2()
    ensures WordAt(24, 2, 0xa356ea6cafe4869797a1b4eea56d38cc)
  {
    hide ByteAt; hide WordAt; hide RightKey; hide TestKey; hide Constant;
    Words24Start(); Word24At1(); Constant2();
    NextWord(24, 1, 0xe48c52301e91d991b649ed7bb7cde8ad, 0xdb92371d2126e9700324977504e8c90e,
      0x25c44ddf2570040bd2efda8b4b9dfd17, 0xa357e86fabe180909fa8bee5a96036c3, 0x000102030405060708090a0b0c0d0e0f);
  }

  lemma Word24At3()
    ensures WordAt(24, 3, 0xe1898f2e0e626ccf1f58bd50713c93bb)
  {
    hide ByteAt; hide WordAt; hide RightKey; hide TestKey; hide Constant;
    Words24Start(); Word24At1(); Word24At2(); Constant0();
    NextWord(24, 2, 0xa356ea6cafe4869797a1b4eea56d38cc, 0x517cc1b727220a94fe13abe8fa9a6ee0,
      0x89180b59c427f01bf9d0cb21cff8b9d4, 0x0505dd1e10f3b55ea911502bc6f17b16, 0xe48c52301e91d991b649ed7bb7cde8ad);
  }

  lemma Round24At0() ensures TurnsAt(0,
    0x00112233445566778899aabbccddeeff, 0xbd14be928e4305d5333b3cc231a278f6,
    0x7ac21ce974be00d2eafd35bd54403539, 0xff0a53eb839b686852dad8cf18de2cf2) {}
  lemma Round24At1() ensures TurnsAt(1,
    0xff0a53eb839b686852dad8cf18de2cf2, 0x4395c65ac3dc4c6d269b1f8f81503c00,
    0x78d72ae1725836c2ca22c62df969cae0, 0xee4161aac78ae47750dfe66aff08763b) {}
  lemma Round24At2() ensures TurnsAt(2,
    0xee4161aac78ae47750dfe66aff08763b, 0x3121965d9e01475bda385705b2c736eb,
    0x9eff26eacb4f71d47ef356d9e3da72b2, 0x75619b2290bbf0fa4017e4b1b523a8c7) {}
  lemma Round24At3() ensures TurnsAt(3,
    0x75619b2290bbf0fa4017e4b1b523a8c7, 0x40486f2e2e220c4fbf985c51507df23a,
    0xd943bf3c5a26b0f27d9a6c902a10beba, 0x9f1cc55fa9d75818f408c2259ea62d2b) {}
  lemma Round24At4() ensures TurnsAt(4,
    0x9f1cc55fa9d75818f408c2259ea62d2b, 0x6f9ad358cd1da267352ab928609ed4f8,
    0x8c84ff78436e144178410309bb3a691c, 0x454e7efa1988f1182fa9a316dde0f831) {}
  lemma Round24At5() ensures TurnsAt(5,
    0x454e7efa1988f1182fa9a316dde0f831, 0xae5623a9583c0d48e980e054988e8170,
    0x3c2a4c38f814b008c7431af468cab67f, 0x88c39bb29e7a83334998a21901abe928) {}
  lemma Round24At6() ensures TurnsAt(6,
    0x88c39bb29e7a83334998a21901abe928, 0x412fcd1b6cf798cb8b656d709bdc426c,
    0xddd6b9a4891f44f725ba5f27b8260edd, 0xdeab0665aacde8aad1c1986ff9967c5e) {}
  lemma Round24At7() ensures TurnsAt(7,
    0xdeab0665aacde8aad1c1986ff9967c5e, 0xf99393300e6068c91752b15e612e87ad,
    0x3d532a831d46cd31c75ca573e25a0fa5, 0x9d8112c94f9e6711187b1a34487ac5e5) {}
  lemma Round24At8() ensures TurnsAt(8,
    0x9d8112c94f9e6711187b1a34487ac5e5, 0x36c83fac72fcbb12b498804d0fdf353d,
    0x6278fa97270e931b913337bda0bf1790, 0x297d76553d4b984f3e8d4ed52464459d) {}
  lemma Round24At9() ensures TurnsAt(9,
    0x297d76553d4b984f3e8d4ed52464459d, 0x167864adca3c7e88222330362231787f,
    0x25b9c98926198ef6c42bf333a524275b, 0xcd372f097eb243c8c0ba6c39b5c7ac23) {}
  lemma Round24At10() ensures TurnsAt(10,
    0xcd372f097eb243c8c0ba6c39b5c7ac23, 0x40bdfdc6a1c314e0eb90850b64a17555,
    0x5df17f459eabda57f118eb6c3e58e5ad, 0x55f9a19b5c91e0957b6a4f3049d7bc0c) {}
  lemma Round24At11() ensures TurnsAt(11,
    0x55f9a19b5c91e0957b6a4f3049d7bc0c, 0x0088ae6f6fe3cd0eff589d1011bc337b,
    0xedfa763d66dcd83e4f6cb51d5e237326, 0xf0cf94f7402d0130ff23055245ef68ea) {}
  lemma Round24At12() ensures TurnsAt(12,
    0xf0cf94f7402d0130ff23055245ef68ea, 0x0f49eecbdf21f0bad3effe5dfe4b2717,
    0x1684bd0cdb3c2bbb7116633ceaa992a2, 0xa01563f5ea1626ad9ac1dcbf6931456e) {}
  lemma Round24At13() ensures TurnsAt(13,
    0xa01563f5ea1626ad9ac1dcbf6931456e, 0xb37e117bd54103e6e4ff711de6669d9b,
    0x8223401325933f958a9b95fd73936122, 0xea06001e6558b99835e2c46adcb720e8) {}

  // The answer for the 24-byte key.
  lemma Answer24()
    ensures Cipher(PLAIN, EncryptionKeys(TestKey(24))) == Big(0x26449c1805dbe7aa25a468ce263a9e79)
  {
    hide At; hide KeyAt; hide WordAt; hide TurnsAt; hide Big; hide Cipher;
    Words24Start(); Word24At1(); Word24At2(); Word24At3();
    var w0 := 0x000102030405060708090a0b0c0d0e0f;
    var w1 := 0xe48c52301e91d991b649ed7bb7cde8ad;
    var w2 := 0xa356ea6cafe4869797a1b4eea56d38cc;
    var w3 := 0xe1898f2e0e626ccf1f58bd50713c93bb;
    KeyFrom(24, 0, w0, w1, Turned(0, w1), 0xbd14be928e4305d5333b3cc231a278f6);
    KeyFrom(24, 1, w1, w2, Turned(0, w2), 0x4395c65ac3dc4c6d269b1f8f81503c00);
    KeyFrom(24, 2, w2, w3, Turned(0, w3), 0x3121965d9e01475bda385705b2c736eb);
    KeyFrom(24, 3, w3, w0, Turned(0, w0), 0x40486f2e2e220c4fbf985c51507df23a);
    KeyFrom(24, 4, w0, w1, Turned(1, w1), 0x6f9ad358cd1da267352ab928609ed4f8);
    KeyFrom(24, 5, w1, w2, Turned(1, w2), 0xae5623a9583c0d48e980e054988e8170);
    KeyFrom(24, 6, w2, w3, Turned(1, w3), 0x412fcd1b6cf798cb8b656d709bdc426c);
    KeyFrom(24, 7, w3, w0, Turned(1, w0), 0xf99393300e6068c91752b15e612e87ad);
    KeyFrom(24, 8, w0, w1, Turned(2, w1), 0x36c83fac72fcbb12b498804d0fdf353d);
    KeyFrom(24, 9, w1, w2, Turned(2, w2), 0x167864adca3c7e88222330362231787f);
    KeyFrom(24, 10, w2, w3, Turned(2, w3), 0x40bdfdc6a1c314e0eb90850b64a17555);
    KeyFrom(24, 11, w3, w0, Turned(2, w0), 0x0088ae6f6fe3cd0eff589d1011bc337b);
    KeyFrom(24, 12, w0, w1, Turned(3, w1), 0x0f49eecbdf21f0bad3effe5dfe4b2717);
    KeyFrom(24, 13, w1, w2, Turned(3, w2), 0xb37e117bd54103e6e4ff711de6669d9b);
    KeyFrom(24, 14, w2, w3, Turned(3, w3), 0xa467dc0b2048d83faf3ffd3355a9ff5b);
    Follow(24);
    Round24At0(); Round24At1(); Round24At2(); Round24At3(); Round24At4(); Round24At5();
    Round24At6(); Round24At7(); Round24At8(); Round24At9(); Round24At10(); Round24At11();
    Round24At12(); Round24At13();
    Last(24, 0xea06001e6558b99835e2c46adcb720e8, 0x8223401325933f958a9b95fd73936122,
      0xa467dc0b2048d83faf3ffd3355a9ff5b);
  }

  lemma Words32Start()
    ensures WordAt(32, 0, 0x000102030405060708090a0b0c0d0e0f)
    ensures RightKey(TestKey(32)) == Big(0x101112131415161718191a1b1c1d1e1f)
  {}

  lemma Word32At1()
    ensures WordAt(32, 1, 0x15169e6ec54aaf0c975414fead1c71f3)
  {
    hide ByteAt; hide WordAt; hide RightKey; hide TestKey; hide Constant;
    Words32Start(); Constant2();
    NextWord(32, 0, 0x000102030405060708090a0b0c0d0e0f, 0xdb92371d2126e9700324977504e8c90e,
      0xb957d9c43f6b61192bdf75a8305a3168, 0x05078c7dd15fb91b8f4d0ee5b1016fec, 0x101112131415161718191a1b1c1d1e1f);
  }

  lemma Word32At2()
    ensures WordAt(32, 2, 0x90ec92c2a800405af99389e9c88b4e62)
  {
    hide ByteAt; hide WordAt; hide RightKey; hide TestKey; hide Constant;
    Words32Start(); Word32At1(); Constant0();
    NextWord(32, 1, 0x15169e6ec54aaf0c975414fead1c71f3, 0x517cc1b727220a94fe13abe8fa9a6ee0,
      0x860acf6f3bb4063be45808bedabec0cb, 0x90ed90c1ac05465df19a83e2c486406d, 0x000102030405060708090a0b0c0d0e0f);
  }

  lemma Word32At3()
    ensures WordAt(32, 3, 0xb68cd7a1ba16abee905f7009a8e968a9)
  {
    hide ByteAt; hide WordAt; hide RightKey; hide TestKey; hide Constant;
    Words32Start(); Word32At1(); Word32At2(); Constant1();
    NextWord(32, 2, 0x90ec92c2a800405af99389e9c88b4e62, 0x6db14acc9e21c820ff28b1d5ef5de2b0,
      0x54a42d62050697516f8a760ccc1caac9, 0xa39a49cf7f5c04e2070b64f705f5195a, 0x15169e6ec54aaf0c975414fead1c71f3);
  }

  lemma Round32At0() ensures TurnsAt(0,
    0x00112233445566778899aabbccddeeff, 0x8e3f60a1d7c8deae5de898e18e92dbac,
    0x19e7f69edc259a7b03aba1e52ccdd95f, 0x64739617aa297fe46a5146919209e915) {}
  lemma Round32At1() ensures TurnsAt(1,
    0x64739617aa297fe46a5146919209e915, 0x7cdacc735712fa0c9f5f4bccdc2148e2,
    0x34a4be36219897617762d7a4b65732f8, 0xf01c2fdb0bccbf37a8bf5f2e9c034ffb) {}
  lemma Round32At2() ensures TurnsAt(2,
    0xf01c2fdb0bccbf37a8bf5f2e9c034ffb, 0xbdf9a41332f477182cee5be2268a7b7f,
    0xe35ace4a123ab14d5f7a3007f4232886, 0xc7eebca8e1e6fd2e73e9f57de119d455) {}
  lemma Round32At3() ensures TurnsAt(3,
    0xc7eebca8e1e6fd2e73e9f57de119d455, 0x174d37a19a56cb6e309f910889a80928,
    0x60ba3d0d03eb052d64ad4356f76fc1b9, 0x6c7ce71dfc22061861546c85a30dbff1) {}
  lemma Round32At4() ensures TurnsAt(4,
    0x6c7ce71dfc22061861546c85a30dbff1, 0x5a39e1e52e283ada829c541222a527f2,
    0x05cfa5f7b56a6d05113576150c7ee21b, 0x97f9639537379423693621392e83efc9) {}
  lemma Round32At5() ensures TurnsAt(5,
    0x97f9639537379423693621392e83efc9, 0x840002abe4938a89c754944b5e3b6220,
    0x824cef10a95d7239be08d50cd05a5da1, 0x7a4c3f387ed40316706095ea3ce83f9d) {}
  lemma Round32At6() ensures TurnsAt(6,
    0x7a4c3f387ed40316706095ea3ce83f9d, 0xc13e4391c519ef198dbede34e835ae71,
    0xea0c01a4ea82833c549bccf94844ac80, 0xeab89889e8398c8a38fa340c982de87d) {}
  lemma Round32At7() ensures TurnsAt(7,
    0xeab89889e8398c8a38fa340c982de87d, 0xae96cbbfba14afe898557c07b8fb7cbf,
    0x861aed854840260e47fc524654ec2251, 0x9e1d6512590a730035caf4a431d293bb) {}
  lemma Round32At8() ensures TurnsAt(8,
    0x9e1d6512590a730035caf4a431d293bb, 0x92eb809cd1a688396aabd9c6d4a45bee,
    0xfeb32a69c4fe63aacf87fa08d942b124, 0x75cb1bab78f698e5bfb077c2062993b2) {}
  lemma Round32At9() ensures TurnsAt(9,
    0x75cb1bab78f698e5bfb077c2062993b2, 0x4a24ef53fc5bc6c0c54986a6f81c79f8,
    0x25d3bf894f4658f0bd4ca1360cc887c8, 0x203c974b18b7434de855954eb2d058b1) {}
  lemma Round32At10() ensures TurnsAt(10,
    0x203c974b18b7434de855954eb2d058b1, 0x42e77cc39d1d6d4fcf42131dffc99b1f,
    0xaa0a3c529739c399cc2bdc5fe377332b, 0xa5b315cd24206c9c2ed5049bfbc511a3) {}
  lemma Round32At11() ensures TurnsAt(11,
    0xa5b315cd24206c9c2ed5049bfbc511a3, 0x578df6e0db970a2f705f5049c869c869,
    0x049b11df7d7033f59dbb20a26644356e, 0xc6ba5f7201f9596a1d2d3aae33e4fa54) {}
  lemma Round32At12() ensures TurnsAt(12,
    0xc6ba5f7201f9596a1d2d3aae33e4fa54, 0x62a455854faf0c785e8732f286864138,
    0x4959a3ea2f2aed5e1a39bf54d50efedf, 0xfbfe7a26af3be9cb0fa8452af1bb3585) {}
  lemma Round32At13() ensures TurnsAt(13,
    0xfbfe7a26af3be9cb0fa8452af1bb3585, 0x4116be43b9836bf87311b3cfe56a3892,
    0xc09c1c21ff5a13fb017d425a9b0fd72b, 0x6971d8a121818c613e035108d445b44d) {}
  lemma Round32At14() ensures TurnsAt(14,
    0x6971d8a121818c613e035108d445b44d, 0x4de7c735e02ff85e2de73dbd13cd25b2,
    0x367bcb04789dcaed7d7db8fec649ac60, 0x531d29e52f0e5ab9498ecc4dd299f8f0) {}
  lemma Round32At15() ensures TurnsAt(15,
    0x531d29e52f0e5ab9498ecc4dd299f8f0, 0x348e54a23e122eeb1659f70e28e9e9a8,
    0x0a5cff91e3d692888473e22914b88247, 0x2d05b5a54b7a405e20ad51e0f75f76b7) {}

  // The answer for the 32-byte key.
  lemma Answer32()
    ensures Cipher(PLAIN, EncryptionKeys(TestKey(32))) == Big(0xf92bd7c79fb72e2f2b8f80c1972d24fc)
  {
    hide At; hide KeyAt; hide WordAt; hide TurnsAt; hide Big; hide Cipher;
    Words32Start(); Word32At1(); Word32At2(); Word32At3();
    var w0 := 0x000102030405060708090a0b0c0d0e0f;
    var w1 := 0x15169e6ec54aaf0c975414fead1c71f3;
    var w2 := 0x90ec92c2a800405af99389e9c88b4e62;
    var w3 := 0xb68cd7a1ba16abee905f7009a8e968a9;
    KeyFrom(32, 0, w0, w1, Turned(0, w1), 0x8e3f60a1d7c8deae5de898e18e92dbac);
    KeyFrom(32, 1, w1, w2, Turned(0, w2), 0x7cdacc735712fa0c9f5f4bccdc2148e2);
    KeyFrom(32, 2, w2, w3, Turned(0, w3), 0xbdf9a41332f477182cee5be2268a7b7f);
    KeyFrom(32, 3, w3, w0, Turned(0, w0), 0x174d37a19a56cb6e309f910889a80928);
    KeyFrom(32, 4, w0, w1, Turned(1, w1), 0x5a39e1e52e283ada829c541222a527f2);
    KeyFrom(32, 5, w1, w2, Turned(1, w2), 0x840002abe4938a89c754944b5e3b6220);
    KeyFrom(32, 6, w2, w3, Turned(1, w3), 0xc13e4391c519ef198dbede34e835ae71);
    KeyFrom(32, 7, w3, w0, Turned(1, w0), 0xae96cbbfba14afe898557c07b8fb7cbf);
    KeyFrom(32, 8, w0, w1, Turned(2, w1), 0x92eb809cd1a688396aabd9c6d4a45bee);
    KeyFrom(32, 9, w1, w2, Turned(2, w2), 0x4a24ef53fc5bc6c0c54986a6f81c79f8);
    KeyFrom(32, 10, w2, w3, Turned(2, w3), 0x42e77cc39d1d6d4fcf42131dffc99b1f);
    KeyFrom(32, 11, w3, w0, Turned(2, w0), 0x578df6e0db970a2f705f5049c869c869);
    KeyFrom(32, 12, w0, w1, Turned(3, w1), 0x62a455854faf0c785e8732f286864138);
    KeyFrom(32, 13, w1, w2, Turned(3, w2), 0x4116be43b9836bf87311b3cfe56a3892);
    KeyFrom(32, 14, w2, w3, Turned(3, w3), 0x4de7c735e02ff85e2de73dbd13cd25b2);
    KeyFrom(32, 15, w3, w0, Turned(3, w0), 0x348e54a23e122eeb1659f70e28e9e9a8);
    KeyFrom(32, 16, w0, w1, Turned(4, w1), 0xf37728567c61bca7affc62e88395a6bb);
    Follow(32);
    Round32At0(); Round32At1(); Round32At2(); Round32At3(); Round32At4(); Round32At5();
    Round32At6(); Round32At7(); Round32At8(); Round32At9(); Round32At10(); Round32At11();
    Round32At12(); Round32At13(); Round32At14(); Round32At15();
    Last(32, 0x2d05b5a54b7a405e20ad51e0f75f76b7, 0x0a5cff91e3d692888473e22914b88247,
      0xf37728567c61bca7affc62e88395a6bb);
  }

}
