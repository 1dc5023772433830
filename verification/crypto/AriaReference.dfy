// The reference code of the ARIA cipher on byte arrays, working in place, proved against
// the functions of AriaCipher.
module AriaReference {
  import opened ByteStrings
  import opened AriaTables
  import opened Aria
  import opened AriaCipher

  // The 16 bytes of an array from position p on.
  function At(a: array<bv8>, p: nat): Block
    requires p + 16 <= a.Length
    reads a
  {
    a[p..p + 16]
  }

  // Whether two stretches of 16 bytes share no byte.
  predicate Apart(i: array<bv8>, s: nat, o: array<bv8>, d: nat) {
    i != o || s + 16 <= d || d + 16 <= s
  }

  // One assignment of DL: byte j of the output from three bytes of the input and a shared term.
  method Row(i: array<bv8>, s: nat, o: array<bv8>, d: nat, j: nat, a: nat, b: nat, c: nat, T: bv8)
    requires s + 16 <= i.Length && d + 16 <= o.Length && j < 16 && a < 16 && b < 16 && c < 16
    modifies o
    ensures o[d + j] == Xor4(old(At(i, s))[a], old(At(i, s))[b], old(At(i, s))[c], T)
    ensures forall k :: 0 <= k < o.Length && k != d + j ==> o[k] == old(o[k])
    ensures Apart(i, s, o, d) ==> At(i, s) == old(At(i, s))
  {
    hide Xor4;
    o[d + j] := Xor4(i[s + a], i[s + b], i[s + c], T);
  }

  // The four groups of assignments of DL; those of a group share the term T.
  method Group1(i: array<bv8>, s: nat, o: array<bv8>, d: nat)
    requires s + 16 <= i.Length && d + 16 <= o.Length
    modifies o
    ensures Apart(i, s, o, d) ==>
            var x := old(At(i, s));
            var T := Xor4(x[3], x[4], x[9], x[14]);
            o[d + 0] == Xor4(x[6], x[8], x[13], T) &&
            o[d + 5] == Xor4(x[1], x[10], x[15], T) &&
            o[d + 11] == Xor4(x[2], x[7], x[12], T) &&
            o[d + 14] == Xor4(x[0], x[5], x[11], T)
    ensures forall k :: 0 <= k < o.Length && k != d + 0 && k != d + 5 && k != d + 11 && k != d + 14 ==>
              o[k] == old(o[k])
    ensures Apart(i, s, o, d) ==> At(i, s) == old(At(i, s))
  {
    hide Xor4;
    var T := Xor4(i[s + 3], i[s + 4], i[s + 9], i[s + 14]);
    Row(i, s, o, d, 0, 6, 8, 13, T);
    Row(i, s, o, d, 5, 1, 10, 15, T);
    Row(i, s, o, d, 11, 2, 7, 12, T);
    Row(i, s, o, d, 14, 0, 5, 11, T);
  }

  method Group2(i: array<bv8>, s: nat, o: array<bv8>, d: nat)
    requires s + 16 <= i.Length && d + 16 <= o.Length
    modifies o
    ensures Apart(i, s, o, d) ==>
            var x := old(At(i, s));
            var T := Xor4(x[2], x[5], x[8], x[15]);
            o[d + 1] == Xor4(x[7], x[9], x[12], T) &&
            o[d + 4] == Xor4(x[0], x[11], x[14], T) &&
            o[d + 10] == Xor4(x[3], x[6], x[13], T) &&
            o[d + 15] == Xor4(x[1], x[4], x[10], T)
    ensures forall k :: 0 <= k < o.Length && k != d + 1 && k != d + 4 && k != d + 10 && k != d + 15 ==>
              o[k] == old(o[k])
    ensures Apart(i, s, o, d) ==> At(i, s) == old(At(i, s))
  {
    hide Xor4;
    var T := Xor4(i[s + 2], i[s + 5], i[s + 8], i[s + 15]);
    Row(i, s, o, d, 1, 7, 9, 12, T);
    Row(i, s, o, d, 4, 0, 11, 14, T);
    Row(i, s, o, d, 10, 3, 6, 13, T);
    Row(i, s, o, d, 15, 1, 4, 10, T);
  }

  method Group3(i: array<bv8>, s: nat, o: array<bv8>, d: nat)
    requires s + 16 <= i.Length && d + 16 <= o.Length
    modifies o
    ensures Apart(i, s, o, d) ==>
            var x := old(At(i, s));
            var T := Xor4(x[1], x[6], x[11], x[12]);
            o[d + 2] == Xor4(x[4], x[10], x[15], T) &&
            o[d + 7] == Xor4(x[3], x[8], x[13], T) &&
            o[d + 9] == Xor4(x[0], x[5], x[14], T) &&
            o[d + 12] == Xor4(x[2], x[7], x[9], T)
    ensures forall k :: 0 <= k < o.Length && k != d + 2 && k != d + 7 && k != d + 9 && k != d + 12 ==>
              o[k] == old(o[k])
    ensures Apart(i, s, o, d) ==> At(i, s) == old(At(i, s))
  {
    hide Xor4;
    var T := Xor4(i[s + 1], i[s + 6], i[s + 11], i[s + 12]);
    Row(i, s, o, d, 2, 4, 10, 15, T);
    Row(i, s, o, d, 7, 3, 8, 13, T);
    Row(i, s, o, d, 9, 0, 5, 14, T);
    Row(i, s, o, d, 12, 2, 7, 9, T);
  }

  method Group4(i: array<bv8>, s: nat, o: array<bv8>, d: nat)
    requires s + 16 <= i.Length && d + 16 <= o.Length
    modifies o
    ensures Apart(i, s, o, d) ==>
            var x := old(At(i, s));
            var T := Xor4(x[0], x[7], x[10], x[13]);
            o[d + 3] == Xor4(x[5], x[11], x[14], T) &&
            o[d + 6] == Xor4(x[2], x[9], x[12], T) &&
            o[d + 8] == Xor4(x[1], x[4], x[15], T) &&
            o[d + 13] == Xor4(x[3], x[6], x[8], T)
    ensures forall k :: 0 <= k < o.Length && k != d + 3 && k != d + 6 && k != d + 8 && k != d + 13 ==>
              o[k] == old(o[k])
    ensures Apart(i, s, o, d) ==> At(i, s) == old(At(i, s))
  {
    hide Xor4;
    var T := Xor4(i[s + 0], i[s + 7], i[s + 10], i[s + 13]);
    Row(i, s, o, d, 3, 5, 11, 14, T);
    Row(i, s, o, d, 6, 2, 9, 12, T);
    Row(i, s, o, d, 8, 1, 4, 15, T);
    Row(i, s, o, d, 13, 3, 6, 8, T);
  }

  // DL(i + s, o + d). When input and output share bytes only the frame is promised: the
  // output bytes written first are read again as input.
  method DL(i: array<bv8>, s: nat, o: array<bv8>, d: nat)
    requires s + 16 <= i.Length && d + 16 <= o.Length
    modifies o
    ensures Apart(i, s, o, d) ==> At(o, d) == Diffuse(old(At(i, s)))
    ensures forall k :: 0 <= k < d || d + 16 <= k < o.Length ==> o[k] == old(o[k])
  {
    hide Diffuse; hide Xor4;
    ghost var x := At(i, s);
    Group1(i, s, o, d);
    Group2(i, s, o, d);
    Group3(i, s, o, d);
    Group4(i, s, o, d);
    DiffuseExpanded(x);
  }

  // ---------- RotXOR ----------

  // Target byte fed by source byte a (its high-order part) and the one before it (its
  // low-order part), which held b, after the first i source bytes.
  ghost function Accumulated(b: bv8, s: Block, r: nat, a: nat, i: nat): bv8
    requires r < 8 && a < 16 && i <= 16
  {
    var before := (a + 15) % 16;
    var high := if a < i then s[a] >> r else 0;
    var low := if r != 0 && before < i then s[before] << (8 - r) else 0;
    X(X(b, high), low)
  }

  // The source byte whose high-order part goes to target byte k when rotating by q bytes.
  function SourceOf(q: nat, k: nat): (a: nat)
    ensures a < 16
  {
    (k - q) % 16
  }

  lemma AccumulatedNone(b: bv8, s: Block, r: nat, a: nat)
    requires r < 8 && a < 16
    ensures Accumulated(b, s, r, a, 0) == b
  {
    hide X;
    XLaws(b, 0, 0);
  }

  lemma AccumulatedAll(b: bv8, s: Block, n: nat, k: nat)
    requires k < 16
    ensures Accumulated(b, s, n % 8, SourceOf(n / 8, k), 16) == X(b, RotatedByte(s, n, k))
  {
    hide X; hide SourceOf; hide Accumulated;
    var a, r := SourceOf(n / 8, k), n % 8;
    RotatedFrom(s, n, k);
    BothParts(b, s, r, a);
  }

  // Both parts of a target byte: shifted by r bits the byte a and the one before it.
  lemma BothParts(b: bv8, s: Block, r: nat, a: nat)
    requires r < 8 && a < 16
    ensures Accumulated(b, s, r, a, 16) == X(b, if r == 0 then s[a] else X(s[a] >> r, s[(a + 15) % 16] << (8 - r)))
  {
    hide X;
    if r == 0 {
      assert s[a] >> 0 == s[a];
      XLaws(X(b, s[a]), 0, 0);
    } else {
      XLaws(b, s[a] >> r, s[(a + 15) % 16] << (8 - r));
    }
  }

  lemma RotatedFrom(s: Block, n: nat, k: nat)
    requires k < 16
    ensures var a, r := SourceOf(n / 8, k), n % 8;
            RotatedByte(s, n, k) == if r == 0 then s[a] else X(s[a] >> r, s[(a + 15) % 16] << (8 - r))
  {
    hide X;
    OneBefore(k - n / 8);
  }

  lemma OneBefore(x: int)
    ensures (x % 16 + 15) % 16 == (x - 1) % 16
  {}

  lemma XInsert(b: bv8, low: bv8, v: bv8)
    ensures X(X(X(b, 0), low), v) == X(X(b, v), low)
  {
    hide X;
    XLaws(b, 0, 0); XLaws(b, low, v); XLaws(low, v, 0); XLaws(b, v, low);
  }

  // What handling source byte i does to a target byte.
  ghost function Contribution(v: bv8, s: Block, r: nat, a: nat, i: nat): bv8
    requires r < 8 && a < 16 && i < 16
  {
    if a == i then X(v, s[i] >> r)
    else if r != 0 && (a + 15) % 16 == i then X(v, s[i] << (8 - r))
    else v
  }

  lemma AccumulatedNext(b: bv8, s: Block, r: nat, a: nat, i: nat)
    requires r < 8 && a < 16 && i < 16
    ensures Accumulated(b, s, r, a, i + 1) == Contribution(Accumulated(b, s, r, a, i), s, r, a, i)
  {
    hide X;
    var before := (a + 15) % 16;
    if a == i {
      XInsert(b, if r != 0 && before < i then s[before] << (8 - r) else 0, s[i] >> r);
    } else if r != 0 && before == i {
      XLaws(X(b, if a < i then s[a] >> r else 0), 0, 0);
    }
  }

  // The target bytes that source byte i feeds.
  lemma FedBy(q: nat, i: nat, k: nat)
    requires q < 16 && i < 16 && k < 16
    ensures Fed(q, i, k)
  {}

  predicate Fed(q: nat, i: nat, k: nat) {
    (k == (q + i) % 16 <==> SourceOf(q, k) == i) &&
    (k == (q + i + 1) % 16 <==> (SourceOf(q, k) + 15) % 16 == i)
  }

  // XORs the 16 bytes of s, rotated right by n bits, into the bytes of t from position p.
  method RotXOR(s: array<bv8>, n: nat, t: array<bv8>, p: nat)
    requires s != t && 16 <= s.Length && p + 16 <= t.Length && n < 128
    modifies t
    ensures At(t, p) == Xor(old(At(t, p)), RotateRight(At(s, 0), n))
    ensures forall k :: 0 <= k < p || p + 16 <= k < t.Length ==> t[k] == old(t[k])
  {
    hide X; hide Accumulated; hide RotatedByte;
    var q, r := n / 8, n % 8;
    ghost var src, was := At(s, 0), At(t, p);
    forall k | 0 <= k < 16 { AccumulatedNone(was[k], src, r, SourceOf(q, k)); }
    var i := 0;
    while i < 16
      invariant i <= 16
      invariant forall k :: 0 <= k < 16 ==> At(t, p)[k] == Accumulated(was[k], src, r, SourceOf(q, k), i)
      invariant forall k :: 0 <= k < p || p + 16 <= k < t.Length ==> t[k] == old(t[k])
    {
      RotXORStep(s, q, r, t, p, i);
      forall k | 0 <= k < 16 { AccumulatedNext(was[k], src, r, SourceOf(q, k), i); }
      i := i + 1;
    }
    forall k | 0 <= k < 16 { AccumulatedAll(was[k], src, n, k); }
  }

  // The body of the loop of RotXOR.
  method RotXORStep(s: array<bv8>, q: nat, r: nat, t: array<bv8>, p: nat, i: nat)
    requires s != t && 16 <= s.Length && p + 16 <= t.Length && q < 16 && r < 8 && i < 16
    modifies t
    ensures forall k :: 0 <= k < 16 ==> At(t, p)[k] == Contribution(old(At(t, p))[k], At(s, 0), r, SourceOf(q, k), i)
    ensures forall k :: 0 <= k < p || p + 16 <= k < t.Length ==> t[k] == old(t[k])
  {
    hide X; hide Contribution; hide SourceOf;
    ghost var was := At(t, p);
    var hi, lo := (q + i) % 16, (q + i + 1) % 16;
    t[p + hi] := X(t[p + hi], s[i] >> r);
    if r != 0 { t[p + lo] := X(t[p + lo], s[i] << (8 - r)); }
    forall k | 0 <= k < 16
      ensures At(t, p)[k] == Contribution(was[k], At(s, 0), r, SourceOf(q, k), i)
    {
      ContributionIs(was[k], At(s, 0), q, r, i, k);
    }
  }

  lemma ContributionIs(v: bv8, s: Block, q: nat, r: nat, i: nat, k: nat)
    requires q < 16 && r < 8 && i < 16 && k < 16
    ensures Contribution(v, s, r, SourceOf(q, k), i) ==
            if k == (q + i) % 16 then X(v, s[i] >> r)
            else if r != 0 && k == (q + i + 1) % 16 then X(v, s[i] << (8 - r))
            else v
  {
    hide X; hide SourceOf;
    FedBy(q, i, k);
  }

  // ---------- Key setup ----------

  // The loop the code repeats: t[i] = S[(2p + i) % 4][k[i] ^ a[i]].
  method SubstituteXor(p: nat, k: Block, a: array<bv8>, t: array<bv8>)
    requires p < 2 && a != t && 16 <= a.Length && 16 <= t.Length
    modifies t
    ensures At(t, 0) == Substitute(p, Xor(k, At(a, 0)))
    ensures forall j :: 16 <= j < t.Length ==> t[j] == old(t[j])
  {
    hide X; hide S;
    var i := 0;
    while i < 16
      invariant i <= 16
      invariant forall j :: 0 <= j < i ==> t[j] == S((2 * p + j) % 4, X(k[j], a[j]))
      invariant forall j :: 16 <= j < t.Length ==> t[j] == old(t[j])
    {
      t[i] := S((2 * p + i) % 4, X(k[i], a[i]));
      i := i + 1;
    }
  }

  // w[i] ^= v[i] for the first n bytes.
  method XorInto(w: array<bv8>, v: seq<bv8>, n: nat)
    requires w.Length == 16 && n <= 16 && n <= |v|
    modifies w
    ensures forall j :: 0 <= j < 16 ==> w[j] == if j < n then X(old(w[j]), v[j]) else old(w[j])
  {
    hide X;
    var i := 0;
    while i < n
      invariant i <= n
      invariant forall j :: 0 <= j < 16 ==> w[j] == if j < i then X(old(w[j]), v[j]) else old(w[j])
    {
      w[i] := X(w[i], v[i]);
      i := i + 1;
    }
  }

  // w = DL(t) with v added in.
  method DLXor(t: array<bv8>, w: array<bv8>, v: Block)
    requires t != w && t.Length == 16 && w.Length == 16
    modifies w
    ensures At(w, 0) == Xor(Diffuse(old(At(t, 0))), v)
  {
    hide X; hide Diffuse;
    DL(t, 0, w, 0);
    XorInto(w, v, 16);
  }

  // The word W1; q is the number of the key constant.
  method FirstWord(w0: array<bv8>, w1: array<bv8>, t: array<bv8>, q: nat)
    requires LegalKey(w0[..]) && w1.Length == 16 && t.Length == 16 && q == w0.Length / 8 - 2
    requires w0 != w1 && w0 != t && w1 != t
    modifies w1, t
    ensures w1[..] == Word1(w0[..])
  {
    hide X; hide Diffuse; hide Substitute; hide Constant;
    ghost var key := w0[..];
    var R := (8 * w0.Length + 256) / 32;
    SubstituteXor(0, Constant(q), w0, t);
    DL(t, 0, w1, 0);
    ghost var d := At(w1, 0);
    if R == 14 {
      XorInto(w1, w0[16..], 8);
    } else if R == 16 {
      XorInto(w1, w0[16..], 16);
    }
    assert At(w1, 0) == Xor(d, RightKey(key)) by {
      forall j | 0 <= j < 16 ensures w1[j] == X(d[j], RightKey(key)[j]) { XLaws(d[j], 0, 0); }
    }
  }

  // The words W0 to W3 of the key schedule.
  method KeyWords(w0: array<bv8>, w1: array<bv8>, w2: array<bv8>, w3: array<bv8>)
    requires LegalKey(w0[..]) && w1.Length == 16 && w2.Length == 16 && w3.Length == 16
    requires w0 != w1 && w0 != w2 && w0 != w3 && w1 != w2 && w1 != w3 && w2 != w3
    modifies w1, w2, w3
    ensures w1[..] == Word1(w0[..]) && w2[..] == Word2(w0[..]) && w3[..] == Word3(w0[..])
  {
    hide X; hide Diffuse; hide Substitute; hide Constant; hide Word1;
    ghost var key := w0[..];
    var t := new bv8[16];
    var q := w0.Length / 8 - 2;
    FirstWord(w0, w1, t, q);
    assert At(w1, 0) == w1[..];
    q := if q == 2 then 0 else q + 1;
    SubstituteXor(1, Constant(q), w1, t);
    DLXor(t, w2, w0[..16]);
    assert w2[..] == Word2(key);
    q := if q == 2 then 0 else q + 1;
    SubstituteXor(0, Constant(q), w2, t);
    DLXor(t, w3, w1[..]);
  }

  lemma RotateRightNone(s: Block)
    ensures RotateRight(s, 0) == s
  {}

  // The first m round keys are in place and the rest of the array is still zero.
  ghost predicate Done(e: array<bv8>, key: Bytes, m: nat)
    requires LegalKey(key)
    reads e
  {
    16 * m <= e.Length &&
    (forall i :: 0 <= i < m ==> At(e, 16 * i) == RoundKey(key, i)) &&
    forall k :: 16 * m <= k < e.Length ==> e[k] == 0
  }

  lemma DoneKeys(e: array<bv8>, key: Bytes, m: nat)
    requires LegalKey(key) && Done(e, key, m)
    ensures 16 * m <= e.Length && forall i :: 0 <= i < m ==> At(e, 16 * i) == RoundKey(key, i)
  {}

  // RotXOR (a, 0, e + 16m); RotXOR (b, n, e + 16m);
  method MixKey(a: array<bv8>, b: array<bv8>, n: nat, e: array<bv8>, m: nat, ghost key: Bytes)
    requires a != e && b != e && a.Length >= 16 && b.Length >= 16 && n < 128
    requires LegalKey(key) && a[..16] == KeyWord(key, m % 4) && b[..16] == KeyWord(key, (m + 1) % 4)
    requires n == Amount(m / 4)
    requires Done(e, key, m) && 16 * m + 16 <= e.Length
    modifies e
    ensures Done(e, key, m + 1)
  {
    hide X; hide KeyWord; hide RotateRight; hide Amount;
    RotXOR(a, 0, e, 16 * m);
    RotXOR(b, n, e, 16 * m);
    RotateRightNone(At(a, 0));
    forall j | 0 <= j < 16 ensures X(0, a[j]) == a[j] { XLaws(0, a[j], 0); XLaws(a[j], 0, 0); }
    assert At(e, 16 * m) == RoundKey(key, m);
    assert forall i :: 0 <= i < m ==> At(e, 16 * i) == old(At(e, 16 * i));
  }

  method MixKeys(w0: array<bv8>, w1: array<bv8>, w2: array<bv8>, w3: array<bv8>, e: array<bv8>, R: nat,
                 ghost key: Bytes)
    requires w0 != e && w1 != e && w2 != e && w3 != e
    requires LegalKey(key) && R == RoundCount(key) && e.Length == 16 * (R + 1) && Done(e, key, 0)
    requires w0.Length >= 16 && w1.Length >= 16 && w2.Length >= 16 && w3.Length >= 16
    requires w0[..16] == KeyWord(key, 0) && w1[..16] == KeyWord(key, 1) && w2[..16] == KeyWord(key, 2)
    requires w3[..16] == KeyWord(key, 3)
    modifies e
    ensures Done(e, key, R + 1)
  {
    hide KeyWord; hide Done;
    MixKey(w0, w1, 19, e, 0, key);
    MixKey(w1, w2, 19, e, 1, key);
    MixKey(w2, w3, 19, e, 2, key);
    MixKey(w3, w0, 19, e, 3, key);
    MixKey(w0, w1, 31, e, 4, key);
    MixKey(w1, w2, 31, e, 5, key);
    MixKey(w2, w3, 31, e, 6, key);
    MixKey(w3, w0, 31, e, 7, key);
    MixKey(w0, w1, 67, e, 8, key);
    MixKey(w1, w2, 67, e, 9, key);
    MixKey(w2, w3, 67, e, 10, key);
    MixKey(w3, w0, 67, e, 11, key);
    MixKey(w0, w1, 97, e, 12, key);
    if R > 12 {
      MixKey(w1, w2, 97, e, 13, key);
      MixKey(w2, w3, 97, e, 14, key);
    }
    if R > 14 {
      MixKey(w3, w0, 97, e, 15, key);
      MixKey(w0, w1, 109, e, 16, key);
    }
  }

  // Writes the encryption round keys for the key w0 into e.
  method EncKeySetup(w0: array<bv8>, e: array<bv8>) returns (R: nat)
    requires w0 != e && LegalKey(w0[..]) && e.Length == 16 * (RoundCount(w0[..]) + 1)
    modifies e
    ensures R == RoundCount(w0[..])
    ensures forall i :: 0 <= i <= R ==> At(e, 16 * i) == EncryptionKeys(w0[..])[i]
  {
    hide RoundKey; hide Word1; hide Word2; hide Word3;
    ghost var key := w0[..];
    R := (8 * w0.Length + 256) / 32;
    var w1, w2, w3 := new bv8[16], new bv8[16], new bv8[16];
    KeyWords(w0, w1, w2, w3);
    assert w0[..16] == KeyWord(key, 0) && w1[..16] == KeyWord(key, 1) by { assert w1[..16] == w1[..]; }
    assert w2[..16] == w2[..] && w3[..16] == w3[..];
    assert w2[..16] == KeyWord(key, 2) && w3[..16] == KeyWord(key, 3);
    hide KeyWord;
    var i := 0;
    while i < e.Length
      modifies e
      invariant i <= e.Length
      invariant forall k :: 0 <= k < i ==> e[k] == 0
    {
      e[i] := 0;
      i := i + 1;
    }
    MixKeys(w0, w1, w2, w3, e, R, key);
    DoneKeys(e, key, R + 1);
  }

  // Writes the decryption round keys for the key w0 into d, rearranging the encryption
  // round keys in place.
  method DecKeySetup(w0: array<bv8>, d: array<bv8>) returns (R: nat)
    requires w0 != d && LegalKey(w0[..]) && d.Length == 16 * (RoundCount(w0[..]) + 1)
    modifies d
    ensures R == RoundCount(w0[..])
    ensures forall i :: 0 <= i <= R ==> At(d, 16 * i) == DecryptionKeys(EncryptionKeys(w0[..]))[i]
  {
    hide EncryptionKeys; hide Diffuse;
    R := EncKeySetup(w0, d);
    ghost var ks := EncryptionKeys(w0[..]);
    ghost var ds := DecryptionKeys(ks);
    var t := new bv8[16];
    SwapOuter(d, R, t);
    var i := 1;
    while i <= R / 2
      modifies d, t
      invariant 1 <= i <= R / 2 + 1
      invariant Turned(d, R, ks, i)
    {
      TurnPair(d, R, i, t, ks);
      i := i + 1;
    }
  }

  // All keys but those from i to R - i are in their final place.
  ghost predicate Turned(d: array<bv8>, R: nat, ks: seq<Block>, i: nat)
    requires R > 0 && |ks| == R + 1 && d.Length == 16 * (R + 1)
    reads d
  {
    (forall k :: 0 <= k <= R && (k < i || R - i < k) ==> At(d, 16 * k) == DecryptionKeys(ks)[k]) &&
    forall k :: i <= k <= R - i ==> At(d, 16 * k) == ks[k]
  }

  // Exchanges two keys, diffusing both. When they are the same key the second call to DL
  // reads what it writes; the copy then repairs the result.
  method ExchangeDiffused(d: array<bv8>, a: nat, b: nat, t: array<bv8>)
    requires d != t && t.Length == 16 && b + 16 <= d.Length && (a == b || a + 16 <= b)
    modifies d, t
    ensures At(d, b) == Diffuse(old(At(d, a))) && At(d, a) == Diffuse(old(At(d, b)))
    ensures forall k :: 0 <= k < d.Length && !(a <= k < a + 16) && !(b <= k < b + 16) ==> d[k] == old(d[k])
  {
    hide Diffuse;
    DL(d, a, t, 0);
    assert At(d, b) == old(At(d, b));
    DL(d, b, d, a);
    CopyBlock(t, d, b);
    assert a < b ==> forall k :: 0 <= k < 16 ==> d[a + k] == Diffuse(old(At(d, b)))[k];
  }

  // Keys other than a and b are the same in two arrays that differ only there.
  lemma KeysElsewhere(x: seq<bv8>, y: seq<bv8>, a: nat, b: nat, k: nat)
    requires |x| == |y| && 16 * k + 16 <= |x| && k != a && k != b
    requires forall l :: 0 <= l < |x| && !(16 * a <= l < 16 * a + 16) && !(16 * b <= l < 16 * b + 16) ==> x[l] == y[l]
    ensures x[16 * k..16 * k + 16] == y[16 * k..16 * k + 16]
  {
    assert 16 * k + 16 <= 16 * a || 16 * a + 16 <= 16 * k;
    assert 16 * k + 16 <= 16 * b || 16 * b + 16 <= 16 * k;
  }

  // The body of the loop of DecKeySetup.
  method TurnPair(d: array<bv8>, R: nat, i: nat, t: array<bv8>, ghost ks: seq<Block>)
    requires d != t && t.Length == 16 && R > 0 && |ks| == R + 1 && d.Length == 16 * (R + 1)
    requires 1 <= i <= R / 2 && Turned(d, R, ks, i)
    modifies d, t
    ensures Turned(d, R, ks, i + 1)
  {
    hide Diffuse; hide DecryptionKeys;
    ghost var ds := DecryptionKeys(ks);
    DecryptionKeysInside(ks, i);
    DecryptionKeysInside(ks, R - i);
    ghost var was := d[..];
    ExchangeDiffused(d, 16 * i, 16 * (R - i), t);
    forall k | 0 <= k <= R && k != i && k != R - i
      ensures At(d, 16 * k) == old(At(d, 16 * k))
    {
      KeysElsewhere(d[..], was, i, R - i, k);
      assert d[..][16 * k..16 * k + 16] == At(d, 16 * k) && was[16 * k..16 * k + 16] == old(At(d, 16 * k));
    }
  }

  lemma DecryptionKeysInside(ks: seq<Block>, i: nat)
    requires |ks| > 1 && 0 < i < |ks| - 1
    ensures DecryptionKeys(ks)[i] == Diffuse(ks[|ks| - 1 - i])
  {}

  // Exchanges the first and the last round key, byte by byte.
  method SwapOuter(d: array<bv8>, R: nat, t: array<bv8>)
    requires d != t && t.Length == 16 && R > 0 && d.Length == 16 * (R + 1)
    modifies d, t
    ensures At(d, 0) == old(At(d, 16 * R)) && At(d, 16 * R) == old(At(d, 0))
    ensures forall i :: 0 < i < R ==> At(d, 16 * i) == old(At(d, 16 * i))
  {
    var j := 0;
    while j < 16
      invariant j <= 16
      invariant forall k :: 0 <= k < j ==> d[k] == old(d[16 * R + k]) && d[16 * R + k] == old(d[k])
      invariant forall k :: j <= k < 16 * R ==> d[k] == old(d[k])
      invariant forall k :: 16 * R + j <= k < d.Length ==> d[k] == old(d[k])
    {
      t[j] := d[j];
      d[j] := d[16 * R + j];
      d[16 * R + j] := t[j];
      j := j + 1;
    }
  }

  method CopyBlock(t: array<bv8>, d: array<bv8>, p: nat)
    requires d != t && t.Length == 16 && p + 16 <= d.Length
    modifies d
    ensures At(d, p) == At(t, 0)
    ensures forall k :: 0 <= k < p || p + 16 <= k < d.Length ==> d[k] == old(d[k])
  {
    var j := 0;
    while j < 16
      invariant j <= 16
      invariant forall k :: 0 <= k < j ==> d[p + k] == t[k]
      invariant forall k :: 0 <= k < p || p + 16 <= k < d.Length ==> d[k] == old(d[k])
    {
      d[p + j] := t[j];
      j := j + 1;
    }
  }

  // ---------- Encryption and decryption ----------

  // c = the cipher of p under the R + 1 round keys in e.
  method Crypt(p: array<bv8>, R: nat, e: array<bv8>, c: array<bv8>, ghost ks: seq<Block>)
    requires p.Length >= 16 && c.Length == 16 && p != c && e != c
    requires R % 2 == 0 && |ks| == R + 1 && e.Length >= 16 * (R + 1)
    requires forall i :: 0 <= i <= R ==> At(e, 16 * i) == ks[i]
    modifies c
    ensures c[..] == Cipher(p[..16], ks)
  {
    hide Diffuse; hide Substitute; hide Xor; hide Rounds;
    var t := new bv8[16];
    CopyBlock16(p, c);
    assert c[..] == At(c, 0);
    RoundsNone(p[..16], ks);
    ghost var x := p[..16];
    var i := 0;
    while i < R / 2
      modifies c, t
      invariant i <= R / 2
      invariant At(c, 0) == Rounds(x, ks, 2 * i)
    {
      RoundsNext(x, ks, 2 * i);
      RoundsNext(x, ks, 2 * i + 1);
      SubstituteXor(0, At(e, 32 * i), c, t);
      DL(t, 0, c, 0);
      assert At(c, 0) == Rounds(x, ks, 2 * i + 1);
      SubstituteXor(1, At(e, 32 * i + 16), c, t);
      DL(t, 0, c, 0);
      assert At(c, 0) == Rounds(x, ks, 2 * i + 2);
      i := i + 1;
    }
    DL(c, 0, t, 0);
    XorBlock(At(e, 16 * R), t, c);
  }

  method CopyBlock16(p: array<bv8>, c: array<bv8>)
    requires p.Length >= 16 && c.Length == 16 && p != c
    modifies c
    ensures c[..] == p[..16]
  {
    var j := 0;
    while j < 16
      invariant j <= 16
      invariant forall k :: 0 <= k < j ==> c[k] == p[k]
    {
      c[j] := p[j];
      j := j + 1;
    }
  }

  // c[j] = k[j] ^ t[j].
  method XorBlock(k: Block, t: array<bv8>, c: array<bv8>)
    requires t.Length == 16 && c.Length == 16 && t != c
    modifies c
    ensures c[..] == Xor(k, At(t, 0))
  {
    hide X;
    var j := 0;
    while j < 16
      invariant j <= 16
      invariant forall l :: 0 <= l < j ==> c[l] == X(k[l], t[l])
    {
      c[j] := X(k[j], t[j]);
      j := j + 1;
    }
  }
}
