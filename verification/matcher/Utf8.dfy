// UTF-8 text as the matcher reads it: characters, their codes, and the fact that matching
// codes is matching bytes.
module Utf8 {
  type Byte = n: int | 0 <= n < 256
  type Text = seq<Byte>

  const MAX_CODE := 0x2DA3

  // ---------- Characters ----------

  // The length a first byte announces; 0 for a byte that cannot come first.
  function CharLength(b: Byte): (w: nat)
    ensures w <= 4
  {
    if b < 0x80 then 1
    else if b < 0xC0 then 0
    else if b < 0xE0 then 2
    else if b < 0xF0 then 3
    else if b < 0xF8 then 4
    else 0
  }

  predicate Continues(b: Byte) { 0x80 <= b < 0xC0 }

  // One character, well formed by the grammar of section 4 of RFC 3629.
  predicate GoodChar(c: Text) {
    match |c|
    case 1 => c[0] < 0x80
    case 2 => 0xC2 <= c[0] < 0xE0 && Continues(c[1])
    case 3 => 0xE0 <= c[0] < 0xF0 && Continues(c[1]) && Continues(c[2]) &&
              (c[0] == 0xE0 ==> c[1] >= 0xA0) && (c[0] == 0xED ==> c[1] < 0xA0)
    case 4 => 0xF0 <= c[0] < 0xF5 && Continues(c[1]) && Continues(c[2]) && Continues(c[3]) &&
              (c[0] == 0xF0 ==> c[1] >= 0x90) && (c[0] == 0xF4 ==> c[1] < 0x90)
    case _ => false
  }

  function Decode2(a: Byte, b: Byte): nat { a % 32 * 64 + b % 64 }

  function Decode3(a: Byte, b: Byte, c: Byte): nat { a % 16 * 4096 + b % 64 * 64 + c % 64 }

  function Decode4(a: Byte, b: Byte, c: Byte, d: Byte): nat {
    a % 8 * 262144 + b % 64 * 4096 + c % 64 * 64 + d % 64
  }

  function Decode(c: Text): nat
    requires 1 <= |c| <= 4
  {
    match |c|
    case 1 => c[0]
    case 2 => Decode2(c[0], c[1])
    case 3 => Decode3(c[0], c[1], c[2])
    case _ => Decode4(c[0], c[1], c[2], c[3])
  }

  // ---------- Codes ----------

  // Seven-bit characters, Hangul jamo and Hangul syllables have codes; everything else is 0.
  function CharCode(ch: nat, fold: bool): (code: nat)
    ensures code <= MAX_CODE
  {
    if ch < 128 then if fold && 0x41 <= ch <= 0x5A then ch + 32 else ch
    else if 0x1100 <= ch <= 0x11FF then ch - 0x1100 + 0x0100
    else if 0xAC00 <= ch <= 0xD7A3 then ch - 0xAC00 + 0x0200
    else 0
  }

  function Code(c: Text, fold: bool): (code: nat)
    requires 1 <= |c| <= 4
    ensures code <= MAX_CODE
  {
    CharCode(Decode(c), fold)
  }

  // The encoded length of a character with a code.
  function Width(code: nat): nat { if code < 0x80 then 1 else 3 }

  function Fold(b: Byte, fold: bool): Byte {
    if fold && 0x41 <= b <= 0x5A then b + 32 else b
  }

  function FoldAll(t: Text, fold: bool): Text {
    seq(|t|, i requires 0 <= i < |t| => Fold(t[i], fold))
  }

  lemma CodeWidth(c: Text, fold: bool)
    requires GoodChar(c) && Code(c, fold) != 0
    ensures |c| == Width(Code(c, fold))
  {}

  // The number of a character without the masks, and the range its length gives it.
  lemma DecodeLinear(c: Text)
    requires GoodChar(c)
    ensures |c| == 1 ==> Decode(c) == c[0] < 0x80
    ensures |c| == 2 ==> Decode(c) == (c[0] as int - 0xC0) * 64 + (c[1] as int - 0x80) && 0x80 <= Decode(c) < 0x800
    ensures |c| == 3 ==> Decode(c) == (c[0] as int - 0xE0) * 4096 + (c[1] as int - 0x80) * 64 + (c[2] as int - 0x80)
    ensures |c| == 3 ==> 0x800 <= Decode(c) < 0x10000
    ensures |c| == 4 ==>
              Decode(c) == (c[0] as int - 0xF0) * 262144 + (c[1] as int - 0x80) * 4096 + (c[2] as int - 0x80) * 64 +
                           (c[3] as int - 0x80)
    ensures |c| == 4 ==> 0x10000 <= Decode(c)
  {
    match |c|
    case 1 =>
    case 2 => assert c[0] % 32 == c[0] as int - 0xC0 && c[1] % 64 == c[1] as int - 0x80;
    case 3 =>
      assert c[0] % 16 == c[0] as int - 0xE0 && c[1] % 64 == c[1] as int - 0x80 && c[2] % 64 == c[2] as int - 0x80;
    case 4 =>
      assert c[0] % 8 == c[0] as int - 0xF0 && c[1] % 64 == c[1] as int - 0x80;
      assert c[2] % 64 == c[2] as int - 0x80 && c[3] % 64 == c[3] as int - 0x80;
  }

  // The code of every well-formed character by its bytes: U+0000 to U+007F, U+1100 to U+11FF
  // (E1 84 80 to E1 87 BF) and U+AC00 to U+D7A3 (EA B0 80 to ED 9E A3).
  lemma CodeByBytes(c: Text, fold: bool)
    requires GoodChar(c)
    ensures |c| == 1 ==> Code(c, fold) == if fold && 65 <= c[0] <= 90 then c[0] + 32 else c[0]
    ensures |c| == 3 ==>
              var x, y, z := c[0] as int - 0xEA, c[1] as int - 0xB0, c[2] as int - 0x80;
              Code(c, fold) ==
              if c[0] == 0xE1 && 0x84 <= c[1] <= 0x87 then 256 + 64 * (c[1] as int - 0x84) + z
              else if 0 <= 4096 * x + 64 * y + z <= 11171 then 512 + 4096 * x + 64 * y + z
              else 0
    ensures |c| == 2 || |c| == 4 ==> Code(c, fold) == 0
  {
    DecodeLinear(c);
  }

  // A well-formed character is determined by the number it encodes.
  lemma DecodeInjective(x: Text, y: Text)
    requires GoodChar(x) && GoodChar(y) && Decode(x) == Decode(y)
    ensures x == y
  {
    hide Decode;
    DecodeLinear(x);
    DecodeLinear(y);
    assert |x| == |y|;
    assert x[0] == y[0];
    assert |x| > 1 ==> x[1] == y[1];
    assert |x| > 2 ==> x[2] == y[2];
  }

  // Codes agree exactly where bytes do, up to the case of letters when cases are folded.
  lemma CodesAgree(x: Text, y: Text, fold: bool)
    requires GoodChar(x) && GoodChar(y) && Code(x, fold) != 0
    ensures Code(x, fold) == Code(y, fold) <==> FoldAll(x, fold) == FoldAll(y, fold)
  {
    hide Decode;
    DecodeLinear(x);
    DecodeLinear(y);
    if Code(x, fold) == Code(y, fold) {
      if |x| == 1 {
        assert FoldAll(x, fold)[0] == FoldAll(y, fold)[0];
      } else {
        DecodeInjective(x, y);
      }
    }
    if FoldAll(x, fold) == FoldAll(y, fold) {
      assert |x| == |FoldAll(x, fold)| == |y|;
      forall i | 0 <= i < |x|
        ensures Fold(x[i], fold) == Fold(y[i], fold)
      {
        assert FoldAll(x, fold)[i] == FoldAll(y, fold)[i];
      }
      if |x| > 1 { assert x == y; }
    }
  }

  // ---------- Well-formed text ----------

  predicate WellFormed(t: Text)
    decreases |t|
  {
    t == [] ||
    var w := CharLength(t[0]);
    1 <= w <= |t| && GoodChar(t[..w]) && WellFormed(t[w..])
  }

  // The characters of a text.
  function Split(t: Text): (cs: seq<Text>)
    requires WellFormed(t)
    decreases |t|
  {
    if t == [] then [] else var w := CharLength(t[0]); [t[..w]] + Split(t[w..])
  }

  function Codes(t: Text, fold: bool): (codes: seq<nat>)
    requires WellFormed(t)
    ensures |codes| == |Split(t)|
    decreases |t|
  {
    if t == [] then [] else var w := CharLength(t[0]); [Code(t[..w], fold)] + Codes(t[w..], fold)
  }

  // The byte position of character k.
  function Offset(cs: seq<Text>, k: nat): nat
    requires k <= |cs|
  {
    if k == 0 then 0 else Offset(cs, k - 1) + |cs[k - 1]|
  }

  lemma {:induction false} OffsetTail(cs: seq<Text>, k: nat)
    requires 0 < k <= |cs|
    ensures Offset(cs, k) == |cs[0]| + Offset(cs[1..], k - 1)
  {
    if k > 1 { OffsetTail(cs, k - 1); }
  }

  // The text without its first character.
  lemma TextTail(t: Text, fold: bool)
    requires WellFormed(t) && t != []
    ensures var w := CharLength(t[0]);
            1 <= w <= |t| && GoodChar(t[..w]) && WellFormed(t[w..]) &&
            Split(t) == [t[..w]] + Split(t[w..]) && Codes(t, fold) == [Code(t[..w], fold)] + Codes(t[w..], fold)
  {}

  lemma NoChars(fold: bool)
    ensures Split([]) == [] && Codes([], fold) == []
  {}

  // The text from character a on is well formed, and its characters are the rest.
  lemma {:induction false} TextFrom(t: Text, a: nat, fold: bool)
    requires WellFormed(t) && a <= |Split(t)|
    ensures var o := Offset(Split(t), a);
            o <= |t| && WellFormed(t[o..]) && Split(t[o..]) == Split(t)[a..] &&
            Codes(t[o..], fold) == Codes(t, fold)[a..]
    decreases |t|
  {
    hide Split; hide Codes; hide GoodChar; hide CharLength; hide WellFormed;
    if a == 0 {
      assert t[0..] == t;
    } else {
      NoChars(fold);
      TextTail(t, fold);
      var w := CharLength(t[0]);
      TextFrom(t[w..], a - 1, fold);
      OffsetTail(Split(t), a);
      RestFrom(t, w, Split(t), Split(t[w..]), Offset(Split(t[w..]), a - 1), a);
      RestCodes(Codes(t, fold), Codes(t[w..], fold), a);
    }
  }

  lemma RestFrom(t: Text, w: nat, cs: seq<Text>, rest: seq<Text>, o: nat, a: nat)
    requires 1 <= w <= |t| && o <= |t[w..]| && cs == [t[..w]] + rest && 1 <= a <= |cs|
    ensures t[w..][o..] == t[w + o..] && cs[1..] == rest && cs[a..] == rest[a - 1..]
  {}

  lemma RestCodes(codes: seq<nat>, rest: seq<nat>, a: nat)
    requires |codes| == |rest| + 1 && codes == [codes[0]] + rest && 1 <= a <= |codes|
    ensures codes[a..] == rest[a - 1..]
  {}

  // The characters make up the text.
  lemma OffsetEnd(t: Text)
    requires WellFormed(t)
    ensures Offset(Split(t), |Split(t)|) == |t|
  {
    TextFrom(t, |Split(t)|, false);
    var o := Offset(Split(t), |Split(t)|);
    assert Split(t[o..]) == [];
    assert t[o..] == [];
  }

  lemma CharInside(t: Text, w: nat)
    requires w <= |t| && GoodChar(t[..w])
    ensures forall i :: 0 < i < w ==> Continues(t[i])
  {
    var c := t[..w];
    assert forall i :: 0 < i < |c| ==> Continues(c[i]) && c[i] == t[i];
  }

  // A byte that is not a continuation byte starts a character.
  lemma {:induction false} Boundary(t: Text, k: nat) returns (a: nat)
    requires WellFormed(t) && k < |t| && !Continues(t[k])
    ensures a < |Split(t)| && Offset(Split(t), a) == k
    decreases |t|
  {
    var w := CharLength(t[0]);
    if k == 0 {
      a := 0;
    } else {
      CharInside(t, w);
      a := Boundary(t[w..], k - w);
      OffsetTail(Split(t), a + 1);
      a := a + 1;
    }
  }

  // ---------- Occurrences ----------

  // Pattern p occurs in t at byte k, up to the case of letters when cases are folded.
  ghost predicate OccursAt(p: Text, t: Text, k: nat, fold: bool) {
    k + |p| <= |t| && FoldAll(t[k..k + |p|], fold) == FoldAll(p, fold)
  }

  // Every character of the pattern has a code.
  ghost predicate Supported(p: Text, fold: bool) {
    WellFormed(p) && forall i :: 0 <= i < |Codes(p, fold)| ==> Codes(p, fold)[i] != 0
  }

  lemma SupportedTail(p: Text, fold: bool)
    requires Supported(p, fold) && p != []
    ensures var w := CharLength(p[0]);
            1 <= w <= |p| && GoodChar(p[..w]) && Code(p[..w], fold) != 0 && Supported(p[w..], fold)
  {
    hide Code; hide GoodChar;
    assert Codes(p, fold)[0] != 0;
    assert forall i :: 0 <= i < |Codes(p[CharLength(p[0])..], fold)| ==>
           Codes(p[CharLength(p[0])..], fold)[i] == Codes(p, fold)[i + 1];
  }

  lemma FoldAllSplit(t: Text, w: nat, fold: bool)
    requires w <= |t|
    ensures FoldAll(t, fold) == FoldAll(t[..w], fold) + FoldAll(t[w..], fold)
  {}

  // At the start of a text, bytes match exactly where codes do.
  lemma {:induction false} PrefixAgree(p: Text, t: Text, fold: bool)
    requires WellFormed(p) && Supported(p, fold) && WellFormed(t)
    ensures OccursAt(p, t, 0, fold) <==> Codes(p, fold) <= Codes(t, fold)
    ensures Codes(p, fold) <= Codes(t, fold) ==> Offset(Split(t), |Codes(p, fold)|) == |p|
    decreases |p|
  {
    if p == [] {
      assert t[0..0] == [];
    } else if t != [] {
      SupportedTail(p, fold);
      TextTail(p, fold);
      TextTail(t, fold);
      var v, w := CharLength(p[0]), CharLength(t[0]);
      PrefixAgree(p[v..], t[w..], fold);
      CodesAgree(p[..v], t[..w], fold);
      if OccursAt(p, t, 0, fold) { BytesFirst(p, t, fold); }
      PrefixStep(p, t, fold);
    }
  }

  lemma PrefixStep(p: Text, t: Text, fold: bool)
    requires WellFormed(p) && WellFormed(t) && p != [] && t != []
    requires var v, w := CharLength(p[0]), CharLength(t[0]);
             1 <= v <= |p| && 1 <= w <= |t| && WellFormed(p[v..]) && WellFormed(t[w..]) &&
             Codes(p, fold) == [Code(p[..v], fold)] + Codes(p[v..], fold) &&
             Codes(t, fold) == [Code(t[..w], fold)] + Codes(t[w..], fold) &&
             Split(t) == [t[..w]] + Split(t[w..]) &&
             (Code(p[..v], fold) == Code(t[..w], fold) <==> FoldAll(p[..v], fold) == FoldAll(t[..w], fold)) &&
             (OccursAt(p[v..], t[w..], 0, fold) <==> Codes(p[v..], fold) <= Codes(t[w..], fold)) &&
             (Codes(p[v..], fold) <= Codes(t[w..], fold) ==> Offset(Split(t[w..]), |Codes(p[v..], fold)|) == |p[v..]|)
    requires OccursAt(p, t, 0, fold) ==>
             CharLength(p[0]) == CharLength(t[0]) &&
             FoldAll(p[..CharLength(p[0])], fold) == FoldAll(t[..CharLength(p[0])], fold)
    ensures OccursAt(p, t, 0, fold) <==> Codes(p, fold) <= Codes(t, fold)
    ensures Codes(p, fold) <= Codes(t, fold) ==> Offset(Split(t), |Codes(p, fold)|) == |p|
  {
    hide Code; hide GoodChar; hide WellFormed; hide Split; hide Codes; hide OccursAt; hide CharLength;
    var v, w := CharLength(p[0]), CharLength(t[0]);
    assert |p[..v]| == v && |t[..w]| == w;
    assert Codes(p, fold) <= Codes(t, fold) <==>
           (Code(p[..v], fold) == Code(t[..w], fold) && Codes(p[v..], fold) <= Codes(t[w..], fold)) by {
      PrefixCons(Code(p[..v], fold), Codes(p[v..], fold), Code(t[..w], fold), Codes(t[w..], fold));
    }
    if FoldAll(p[..v], fold) == FoldAll(t[..w], fold) {
      assert v == |FoldAll(p[..v], fold)| == w;
      FirstThenRest(p, t, w, fold);
    }
    if Codes(p, fold) <= Codes(t, fold) {
      OffsetTail(Split(t), |Codes(p, fold)|);
      assert Split(t)[1..] == Split(t[w..]);
    }
  }

  lemma PrefixCons(a: nat, p: seq<nat>, b: nat, t: seq<nat>)
    ensures [a] + p <= [b] + t <==> a == b && p <= t
  {
    if [a] + p <= [b] + t {
      assert ([a] + p)[0] == ([b] + t)[0];
      assert forall i :: 0 <= i < |p| ==> p[i] == ([a] + p)[i + 1] == ([b] + t)[i + 1] == t[i];
    }
  }

  // Equal bytes have equal first characters.
  lemma BytesFirst(p: Text, t: Text, fold: bool)
    requires WellFormed(p) && WellFormed(t) && p != [] && OccursAt(p, t, 0, fold)
    ensures t != [] && CharLength(p[0]) == CharLength(t[0])
    ensures var w := CharLength(p[0]); FoldAll(p[..w], fold) == FoldAll(t[..w], fold)
  {
    hide GoodChar;
    var f, g := FoldAll(t[0..|p|], fold), FoldAll(p, fold);
    assert f[0] == Fold(t[0], fold) && g[0] == Fold(p[0], fold);
    var w := CharLength(p[0]);
    assert CharLength(t[0]) == w;
    forall i | 0 <= i < w
      ensures Fold(p[i], fold) == Fold(t[i], fold)
    {
      assert f[i] == g[i];
    }
  }

  lemma FirstThenRest(p: Text, t: Text, w: nat, fold: bool)
    requires w <= |p| && w <= |t| && FoldAll(p[..w], fold) == FoldAll(t[..w], fold)
    ensures OccursAt(p, t, 0, fold) <==> OccursAt(p[w..], t[w..], 0, fold)
  {
    if |p| <= |t| {
      var u := t[0..|p|];
      FoldAllSplit(p, w, fold);
      FoldAllSplit(u, w, fold);
      assert u[..w] == t[..w] && u[w..] == t[w..][0..|p| - w];
      assert |FoldAll(p[..w], fold)| == w;
      assert FoldAll(p, fold)[w..] == FoldAll(p[w..], fold) && FoldAll(u, fold)[w..] == FoldAll(u[w..], fold);
    }
  }

  // Codes cp occur in ct from character a on.
  ghost predicate CodesAt(cp: seq<nat>, ct: seq<nat>, a: nat) {
    a + |cp| <= |ct| && ct[a..a + |cp|] == cp
  }

  // Where the codes of a pattern occur, its bytes occur.
  lemma CodesToBytes(p: Text, t: Text, a: nat, fold: bool)
    requires WellFormed(p) && Supported(p, fold) && WellFormed(t) && CodesAt(Codes(p, fold), Codes(t, fold), a)
    ensures OccursAt(p, t, Offset(Split(t), a), fold)
    ensures Offset(Split(t), a + |Codes(p, fold)|) == Offset(Split(t), a) + |p|
  {
    hide Code; hide GoodChar; hide Supported; hide WellFormed; hide Split; hide Codes; hide CharLength;
    var o, n := Offset(Split(t), a), |Codes(p, fold)|;
    TextFrom(t, a, fold);
    assert Codes(t, fold)[a..][..n] == Codes(t, fold)[a..a + n];
    PrefixAgree(p, t[o..], fold);
    assert t[o..][0..|p|] == t[o..o + |p|];
    OffsetFrom(Split(t), a, n);
  }

  lemma {:induction false} OffsetFrom(cs: seq<Text>, a: nat, n: nat)
    requires a + n <= |cs|
    ensures Offset(cs, a + n) == Offset(cs, a) + Offset(cs[a..], n)
  {
    if n > 0 { OffsetFrom(cs, a, n - 1); }
  }

  // Where the bytes of a pattern occur, its codes occur: UTF-8 synchronises itself.
  lemma BytesToCodes(p: Text, t: Text, k: nat, fold: bool) returns (a: nat)
    requires WellFormed(p) && Supported(p, fold) && p != [] && WellFormed(t) && OccursAt(p, t, k, fold)
    ensures a <= |Split(t)| && Offset(Split(t), a) == k && CodesAt(Codes(p, fold), Codes(t, fold), a)
  {
    hide Code; hide GoodChar; hide Supported; hide WellFormed; hide Split; hide Codes;
    SupportedTail(p, fold);
    assert p[..CharLength(p[0])][0] == p[0];
    assert !Continues(t[k]) by {
      assert FoldAll(t[k..k + |p|], fold)[0] == FoldAll(p, fold)[0];
    }
    a := Boundary(t, k);
    TextFrom(t, a, fold);
    assert t[k..][0..|p|] == t[k..k + |p|];
    PrefixAgree(p, t[k..], fold);
    var n := |Codes(p, fold)|;
    assert Codes(t, fold)[a..][..n] == Codes(t, fold)[a..a + n];
  }
}
