// The ARIA block cipher as functions on 16-byte blocks (RFC 5794), and the proof that
// the cipher run with the decryption keys undoes the cipher run with the encryption keys.
module Aria {
  import opened ByteStrings
  import opened AriaTables

  type Block = b: Bytes | |b| == 16 witness seq(16, _ => 0)

  function X(a: bv8, b: bv8): bv8 { a ^ b }

  lemma XLaws(a: bv8, b: bv8, c: bv8)
    ensures X(a, b) == X(b, a)
    ensures X(X(a, b), c) == X(a, X(b, c))
    ensures X(a, X(a, b)) == b
    ensures X(a, 0) == a
    ensures X(a, a) == 0
  {
    XAssociates(a, b, c);
    XCancels(a, b);
  }

  lemma XAssociates(a: bv8, b: bv8, c: bv8)
    ensures X(a, b) == X(b, a) && X(X(a, b), c) == X(a, X(b, c))
  {}

  lemma XCancels(a: bv8, b: bv8)
    ensures X(a, X(a, b)) == b && X(a, 0) == a && X(a, a) == 0
  {}

  // Exclusive or of two blocks.
  function Xor(a: Block, b: Block): Block {
    seq(16, j requires 0 <= j < 16 => X(a[j], b[j]))
  }

  lemma XorCancel(a: Block, b: Block)
    ensures Xor(Xor(a, b), b) == a
  {
    hide X;
    var r := Xor(Xor(a, b), b);
    forall j | 0 <= j < 16 ensures r[j] == a[j] {
      XLaws(a[j], b[j], b[j]); XLaws(b[j], b[j], b[j]);
    }
  }

  // ---------- The substitution layer ----------

  // The layer of an even-numbered (p == 0) or odd-numbered (p == 1) round, counted from
  // zero; RFC 5794 counts from one and calls them the odd and even layers.
  function Substitute(p: nat, x: Block): Block {
    seq(16, j requires 0 <= j < 16 => S((2 * p + j) % 4, x[j]))
  }

  lemma SubstituteInverse(p: nat, q: nat, x: Block)
    requires p < 2 && q < 2 && p != q
    ensures Substitute(p, Substitute(q, x)) == x
  {
    hide S;
    forall j | 0 <= j < 16
      ensures Substitute(p, Substitute(q, x))[j] == x[j]
    {
      TablesInverse((2 * q + j) % 4, x[j]);
    }
  }

  // ---------- The diffusion layer ----------

  // Whether output byte k of the diffusion layer depends on input byte j.
  predicate Taps(k: nat, j: nat) {
    match k
    case 0 => j in {3, 4, 6, 8, 9, 13, 14}
    case 1 => j in {2, 5, 7, 8, 9, 12, 15}
    case 2 => j in {1, 4, 6, 10, 11, 12, 15}
    case 3 => j in {0, 5, 7, 10, 11, 13, 14}
    case 4 => j in {0, 2, 5, 8, 11, 14, 15}
    case 5 => j in {1, 3, 4, 9, 10, 14, 15}
    case 6 => j in {0, 2, 7, 9, 10, 12, 13}
    case 7 => j in {1, 3, 6, 8, 11, 12, 13}
    case 8 => j in {0, 1, 4, 7, 10, 13, 15}
    case 9 => j in {0, 1, 5, 6, 11, 12, 14}
    case 10 => j in {2, 3, 5, 6, 8, 13, 15}
    case 11 => j in {2, 3, 4, 7, 9, 12, 14}
    case 12 => j in {1, 2, 6, 7, 9, 11, 12}
    case 13 => j in {0, 3, 6, 7, 8, 10, 13}
    case 14 => j in {0, 3, 4, 5, 9, 11, 14}
    case _ => j in {1, 2, 4, 5, 8, 10, 15}
  }

  type Mask = m: seq<bool> | |m| == 16 witness seq(16, _ => false)

  function Row(k: nat): Mask {
    seq(16, j requires 0 <= j < 16 => Taps(k, j))
  }

  function XorMask(m: Mask, n: Mask): Mask {
    seq(16, j requires 0 <= j < 16 => m[j] != n[j])
  }

  // Exclusive or of the bytes of x below j that the mask selects.
  function Select(x: Block, m: Mask, j: nat): bv8
    requires j <= 16
  {
    if j == 0 then 0
    else if m[j - 1] then X(x[j - 1], Select(x, m, j - 1))
    else Select(x, m, j - 1)
  }

  // Multiplication by the 16 x 16 binary matrix of section 2.4.3 of RFC 5794.
  function Diffuse(x: Block): Block {
    seq(16, k requires 0 <= k < 16 => Select(x, Row(k), 16))
  }

  lemma {:induction false} SelectXorMask(x: Block, m: Mask, n: Mask, j: nat)
    requires j <= 16
    ensures Select(x, XorMask(m, n), j) == X(Select(x, m, j), Select(x, n, j))
  {
    hide X;
    if j == 0 {
      XLaws(0, 0, 0);
    } else {
      SelectXorMask(x, m, n, j - 1);
      var v, p, q := x[j - 1], Select(x, m, j - 1), Select(x, n, j - 1);
      XLaws(v, p, q); XLaws(p, v, q); XLaws(v, p, X(v, q)); XLaws(v, X(p, q), 0);
    }
  }

  lemma {:induction false} SelectXor(a: Block, b: Block, m: Mask, j: nat)
    requires j <= 16
    ensures Select(Xor(a, b), m, j) == X(Select(a, m, j), Select(b, m, j))
  {
    hide X;
    if j == 0 {
      XLaws(0, 0, 0);
    } else {
      SelectXor(a, b, m, j - 1);
      var u, v, p, q := a[j - 1], b[j - 1], Select(a, m, j - 1), Select(b, m, j - 1);
      XLaws(u, v, X(p, q)); XLaws(v, p, q); XLaws(p, v, q); XLaws(u, p, X(v, q));
    }
  }

  lemma DiffuseXor(a: Block, b: Block)
    ensures Diffuse(Xor(a, b)) == Xor(Diffuse(a), Diffuse(b))
  {
    hide X; hide Select; hide Taps;
    forall k | 0 <= k < 16
      ensures Diffuse(Xor(a, b))[k] == Xor(Diffuse(a), Diffuse(b))[k]
    {
      SelectXor(a, b, Row(k), 16);
    }
  }

  // Bytes that the mask leaves out do not matter.
  lemma {:induction false} SelectSkip(x: Block, m: Mask, i: nat, j: nat)
    requires i <= j <= 16
    requires forall l :: i <= l < j ==> !m[l]
    ensures Select(x, m, j) == Select(x, m, i)
  {
    hide X;
    if i < j { SelectSkip(x, m, i, j - 1); }
  }

  function Unit(a: nat): Mask {
    seq(16, j requires 0 <= j < 16 => j == a)
  }

  // Grouped as the reference code groups the seven bytes of an output byte.
  function XorMasks(a: Mask, b: Mask, c: Mask, d: Mask, e: Mask, f: Mask, g: Mask): Mask {
    XorMask(XorMask(XorMask(a, b), c), XorMask(XorMask(XorMask(d, e), f), g))
  }

  function Xor4(a: bv8, b: bv8, c: bv8, d: bv8): bv8 {
    X(X(X(a, b), c), d)
  }

  function XorBytes(a: bv8, b: bv8, c: bv8, d: bv8, e: bv8, f: bv8, g: bv8): bv8 {
    Xor4(a, b, c, Xor4(d, e, f, g))
  }

  lemma SelectXorMasks(x: Block, a: Mask, b: Mask, c: Mask, d: Mask, e: Mask, f: Mask, g: Mask)
    ensures Select(x, XorMasks(a, b, c, d, e, f, g), 16)
         == XorBytes(Select(x, a, 16), Select(x, b, 16), Select(x, c, 16), Select(x, d, 16),
                     Select(x, e, 16), Select(x, f, 16), Select(x, g, 16))
  {
    hide X; hide XorMask;
    var ab, de := XorMask(a, b), XorMask(d, e);
    SelectXorMask(x, a, b, 16);
    SelectXorMask(x, ab, c, 16);
    SelectXorMask(x, d, e, 16);
    SelectXorMask(x, de, f, 16);
    SelectXorMask(x, XorMask(de, f), g, 16);
    SelectXorMask(x, XorMask(ab, c), XorMask(XorMask(de, f), g), 16);
  }

  lemma SelectUnit(x: Block, a: nat)
    requires a < 16
    ensures Select(x, Unit(a), 16) == x[a]
  {
    hide X;
    SelectSkip(x, Unit(a), a + 1, 16);
    SelectSkip(x, Unit(a), 0, a);
    XLaws(x[a], 0, 0);
  }

  // A row of the matrix selects seven bytes, whatever order they are listed in.
  lemma SelectSeven(x: Block, m: Mask, a: nat, b: nat, c: nat, d: nat, e: nat, f: nat, g: nat)
    requires a < 16 && b < 16 && c < 16 && d < 16 && e < 16 && f < 16 && g < 16
    requires XorMasks(Unit(a), Unit(b), Unit(c), Unit(d), Unit(e), Unit(f), Unit(g)) == m
    ensures Select(x, m, 16) == XorBytes(x[a], x[b], x[c], x[d], x[e], x[f], x[g])
  {
    hide *;
    SelectXorMasks(x, Unit(a), Unit(b), Unit(c), Unit(d), Unit(e), Unit(f), Unit(g));
    SelectUnit(x, a); SelectUnit(x, b); SelectUnit(x, c); SelectUnit(x, d);
    SelectUnit(x, e); SelectUnit(x, f); SelectUnit(x, g);
  }

  // The seven input bytes of output byte k, three of its own and four shared with three
  // other output bytes, as the reference code lists them.
  predicate TapsAre(k: nat, a: nat, b: nat, c: nat, d: nat, e: nat, f: nat, g: nat) {
    a < 16 && b < 16 && c < 16 && d < 16 && e < 16 && f < 16 && g < 16 &&
    forall j :: 0 <= j < 16 ==> Taps(k, j) == Odd(j == a, j == b, j == c, j == d, j == e, j == f, j == g)
  }

  predicate Odd(a: bool, b: bool, c: bool, d: bool, e: bool, f: bool, g: bool) {
    ((a != b) != c) != (((d != e) != f) != g)
  }

  lemma DiffuseByte(x: Block, k: nat, a: nat, b: nat, c: nat, d: nat, e: nat, f: nat, g: nat)
    requires k < 16 && TapsAre(k, a, b, c, d, e, f, g)
    ensures Diffuse(x)[k] == XorBytes(x[a], x[b], x[c], x[d], x[e], x[f], x[g])
  {
    hide XorBytes; hide Taps;
    assert XorMasks(Unit(a), Unit(b), Unit(c), Unit(d), Unit(e), Unit(f), Unit(g)) == Row(k);
    SelectSeven(x, Row(k), a, b, c, d, e, f, g);
  }

  // The sixteen equations the reference code computes, in its order.
  lemma DiffuseExpanded(x: Block)
    ensures Diffuse(x)[0] == Xor4(x[6], x[8], x[13], Xor4(x[3], x[4], x[9], x[14]))
    ensures Diffuse(x)[5] == Xor4(x[1], x[10], x[15], Xor4(x[3], x[4], x[9], x[14]))
    ensures Diffuse(x)[11] == Xor4(x[2], x[7], x[12], Xor4(x[3], x[4], x[9], x[14]))
    ensures Diffuse(x)[14] == Xor4(x[0], x[5], x[11], Xor4(x[3], x[4], x[9], x[14]))
    ensures Diffuse(x)[1] == Xor4(x[7], x[9], x[12], Xor4(x[2], x[5], x[8], x[15]))
    ensures Diffuse(x)[4] == Xor4(x[0], x[11], x[14], Xor4(x[2], x[5], x[8], x[15]))
    ensures Diffuse(x)[10] == Xor4(x[3], x[6], x[13], Xor4(x[2], x[5], x[8], x[15]))
    ensures Diffuse(x)[15] == Xor4(x[1], x[4], x[10], Xor4(x[2], x[5], x[8], x[15]))
    ensures Diffuse(x)[2] == Xor4(x[4], x[10], x[15], Xor4(x[1], x[6], x[11], x[12]))
    ensures Diffuse(x)[7] == Xor4(x[3], x[8], x[13], Xor4(x[1], x[6], x[11], x[12]))
    ensures Diffuse(x)[9] == Xor4(x[0], x[5], x[14], Xor4(x[1], x[6], x[11], x[12]))
    ensures Diffuse(x)[12] == Xor4(x[2], x[7], x[9], Xor4(x[1], x[6], x[11], x[12]))
    ensures Diffuse(x)[3] == Xor4(x[5], x[11], x[14], Xor4(x[0], x[7], x[10], x[13]))
    ensures Diffuse(x)[6] == Xor4(x[2], x[9], x[12], Xor4(x[0], x[7], x[10], x[13]))
    ensures Diffuse(x)[8] == Xor4(x[1], x[4], x[15], Xor4(x[0], x[7], x[10], x[13]))
    ensures Diffuse(x)[13] == Xor4(x[3], x[6], x[8], Xor4(x[0], x[7], x[10], x[13]))
  {
    hide Xor4; hide Diffuse;
    DiffuseByte(x, 0, 6, 8, 13, 3, 4, 9, 14);
    DiffuseByte(x, 5, 1, 10, 15, 3, 4, 9, 14);
    DiffuseByte(x, 11, 2, 7, 12, 3, 4, 9, 14);
    DiffuseByte(x, 14, 0, 5, 11, 3, 4, 9, 14);
    DiffuseByte(x, 1, 7, 9, 12, 2, 5, 8, 15);
    DiffuseByte(x, 4, 0, 11, 14, 2, 5, 8, 15);
    DiffuseByte(x, 10, 3, 6, 13, 2, 5, 8, 15);
    DiffuseByte(x, 15, 1, 4, 10, 2, 5, 8, 15);
    DiffuseByte(x, 2, 4, 10, 15, 1, 6, 11, 12);
    DiffuseByte(x, 7, 3, 8, 13, 1, 6, 11, 12);
    DiffuseByte(x, 9, 0, 5, 14, 1, 6, 11, 12);
    DiffuseByte(x, 12, 2, 7, 9, 1, 6, 11, 12);
    DiffuseByte(x, 3, 5, 11, 14, 0, 7, 10, 13);
    DiffuseByte(x, 6, 2, 9, 12, 0, 7, 10, 13);
    DiffuseByte(x, 8, 1, 4, 15, 0, 7, 10, 13);
    DiffuseByte(x, 13, 3, 6, 8, 0, 7, 10, 13);
  }

  // Row k times the matrix is row k of the unit matrix.
  lemma InvolutionAt(x: Block, k: nat, a: nat, b: nat, c: nat, d: nat, e: nat, f: nat, g: nat)
    requires k < 16 && TapsAre(k, a, b, c, d, e, f, g)
    requires forall j :: 0 <= j < 16 ==>
             (j == k) == Odd(Taps(a, j), Taps(b, j), Taps(c, j), Taps(d, j), Taps(e, j), Taps(f, j), Taps(g, j))
    ensures Diffuse(Diffuse(x))[k] == x[k]
  {
    hide XorBytes; hide Select; hide Taps;
    assert XorMasks(Row(a), Row(b), Row(c), Row(d), Row(e), Row(f), Row(g)) == Unit(k);
    DiffuseByte(Diffuse(x), k, a, b, c, d, e, f, g);
    SelectXorMasks(x, Row(a), Row(b), Row(c), Row(d), Row(e), Row(f), Row(g));
    SelectUnit(x, k);
  }

  lemma DiffuseInvolutionLow(x: Block, k: nat)
    requires k < 8
    ensures Diffuse(Diffuse(x))[k] == x[k]
  {
    hide X; hide Select; hide Diffuse;
    match k
    case 0 => InvolutionAt(x, k, 6, 8, 13, 3, 4, 9, 14);
    case 1 => InvolutionAt(x, k, 7, 9, 12, 2, 5, 8, 15);
    case 2 => InvolutionAt(x, k, 4, 10, 15, 1, 6, 11, 12);
    case 3 => InvolutionAt(x, k, 5, 11, 14, 0, 7, 10, 13);
    case 4 => InvolutionAt(x, k, 0, 11, 14, 2, 5, 8, 15);
    case 5 => InvolutionAt(x, k, 1, 10, 15, 3, 4, 9, 14);
    case 6 => InvolutionAt(x, k, 2, 9, 12, 0, 7, 10, 13);
    case _ => InvolutionAt(x, k, 3, 8, 13, 1, 6, 11, 12);
  }

  lemma DiffuseInvolutionHigh(x: Block, k: nat)
    requires 8 <= k < 16
    ensures Diffuse(Diffuse(x))[k] == x[k]
  {
    hide X; hide Select; hide Diffuse;
    match k
    case 8 => InvolutionAt(x, k, 1, 4, 15, 0, 7, 10, 13);
    case 9 => InvolutionAt(x, k, 0, 5, 14, 1, 6, 11, 12);
    case 10 => InvolutionAt(x, k, 3, 6, 13, 2, 5, 8, 15);
    case 11 => InvolutionAt(x, k, 2, 7, 12, 3, 4, 9, 14);
    case 12 => InvolutionAt(x, k, 2, 7, 9, 1, 6, 11, 12);
    case 13 => InvolutionAt(x, k, 3, 6, 8, 0, 7, 10, 13);
    case 14 => InvolutionAt(x, k, 0, 5, 11, 3, 4, 9, 14);
    case _ => InvolutionAt(x, k, 1, 4, 10, 2, 5, 8, 15);
  }

  // The diffusion layer is its own inverse.
  lemma DiffuseInvolution(x: Block)
    ensures Diffuse(Diffuse(x)) == x
  {
    hide Select;
    var y := Diffuse(Diffuse(x));
    forall k | 0 <= k < 16 ensures y[k] == x[k] {
      if k < 8 { DiffuseInvolutionLow(x, k); } else { DiffuseInvolutionHigh(x, k); }
    }
  }
}
