// Overwriting what was matched, and why that is enough: no pattern is left, the text stays
// well formed, and a second pass finds nothing.
module Censoring {
  import opened Utf8
  import opened Automaton
  import opened PatternTrie
  import opened Searching
  import opened LinkedMachine
  import opened DoubleArray

  const STAR: Byte := 42

  // The text with the bytes of a set overwritten.
  function Starred(t: Text, bytes: set<nat>): (r: Text)
    ensures |r| == |t| && forall i :: 0 <= i < |t| ==> r[i] == if i in bytes then 42 else t[i]
  {
    seq(|t|, i requires 0 <= i < |t| => if i in bytes then STAR else t[i])
  }

  // The text with the part from a to b overwritten at a set of its bytes.
  function StarredPart(t: Text, a: nat, b: nat, bytes: set<nat>): (r: Text)
    requires a <= b <= |t|
    ensures |r| == |t|
    ensures forall i :: 0 <= i < |t| ==> r[i] == if a <= i < b && i - a in bytes then 42 else t[i]
  {
    t[..a] + Starred(t[a..b], bytes) + t[b..]
  }

  ghost predicate InsideText(ms: seq<Match>, n: nat) {
    forall j :: 0 <= j < |ms| ==> ms[j].index + ms[j].size <= n
  }

  // Overwrites every byte of every match, in the part of the buffer from a to b.
  method Censor(buffer: array<Byte>, a: nat, b: nat, ms: seq<Match>)
    requires a <= b <= buffer.Length && InsideText(ms, b - a)
    modifies buffer
    ensures buffer[..] == StarredPart(old(buffer[..]), a, b, Cover(ms))
  {
    hide StarredPart; hide Cover; hide Span;
    ghost var t := buffer[..];
    var j := 0;
    NothingStarred(t, a, b);
    while j < |ms|
      invariant 0 <= j <= |ms|
      invariant buffer[..] == StarredPart(t, a, b, Cover(ms[..j]))
    {
      var m := ms[j];
      ghost var before := Cover(ms[..j]);
      CoverSnoc(ms[..j], m);
      assert ms[..j + 1] == ms[..j] + [m];
      assert m.index + m.size <= b - a;
      EmptySpan(Match(m.index, 0));
      assert before + {} == before;
      var i := 0;
      while i < m.size
        invariant 0 <= i <= m.size
        invariant buffer[..] == StarredPart(t, a, b, before + Span(Match(m.index, i)))
      {
        buffer[a + m.index + i] := STAR;
        StarOne(t, a, b, before, m, i);
        i := i + 1;
      }
      j := j + 1;
    }
    assert ms[..|ms|] == ms;
  }

  lemma NothingStarred(t: Text, a: nat, b: nat)
    requires a <= b <= |t|
    ensures StarredPart(t, a, b, {}) == t && Cover([]) == {}
  {}

  lemma StarOne(t: Text, a: nat, b: nat, bytes: set<nat>, m: Match, i: nat)
    requires a <= b <= |t| && m.index + i < b - a
    ensures Span(Match(m.index, i + 1)) == Span(Match(m.index, i)) + {m.index + i}
    ensures StarredPart(t, a, b, bytes + Span(Match(m.index, i + 1))) ==
            StarredPart(t, a, b, bytes + Span(Match(m.index, i)))[a + m.index + i := STAR]
  {
    SpanIs(Match(m.index, i));
    SpanIs(Match(m.index, i + 1));
  }

  // ---------- No pattern is left ----------

  // The bytes contain what a search covers.
  ghost predicate Catches(patterns: seq<Text>, t: Text, fold: bool, bytes: set<nat>) {
    forall x :: Covered(patterns, t, fold, x) ==> x in bytes
  }

  // A pattern without a star does not occur in the censored text, whatever else was censored.
  lemma NoneLeft(patterns: seq<Text>, t: Text, fold: bool, bytes: set<nat>, i: nat, k: nat)
    requires Catches(patterns, t, fold, bytes) && i < |patterns| && patterns[i] != [] && STAR !in patterns[i]
    ensures !OccursAt(patterns[i], Starred(t, bytes), k, fold)
  {
    if OccursAt(patterns[i], Starred(t, bytes), k, fold) {
      OccurredBefore(patterns[i], t, fold, bytes, k);
      assert CoveredBy(patterns[i], t, fold, k, k);
    }
  }

  // A pattern without a star that occurs in a censored text occurred before, untouched.
  lemma OccurredBefore(p: Text, t: Text, fold: bool, bytes: set<nat>, k: nat)
    requires OccursAt(p, Starred(t, bytes), k, fold) && STAR !in p
    ensures OccursAt(p, t, k, fold) && (p != [] ==> k !in bytes)
  {
    var u := Starred(t, bytes);
    var there, before := u[k..k + |p|], t[k..k + |p|];
    forall j | 0 <= j < |p| ensures k + j !in bytes && there[j] == before[j] {
      assert FoldAll(there, fold)[j] == FoldAll(p, fold)[j];
      assert p[j] in p && there[j] == u[k + j];
    }
    assert there == before;
    if p != [] { assert there[0] == before[0]; }
  }

  // So nothing is covered in the censored text.
  lemma NothingCovered(patterns: seq<Text>, t: Text, fold: bool, bytes: set<nat>, x: nat)
    requires Catches(patterns, t, fold, bytes) && forall i :: 0 <= i < |patterns| ==> STAR !in patterns[i]
    ensures !Covered(patterns, Starred(t, bytes), fold, x)
  {
    var u := Starred(t, bytes);
    if Covered(patterns, u, fold, x) {
      var i: nat, k: nat :| i < |patterns| && CoveredBy(patterns[i], u, fold, k, x);
      NoneLeft(patterns, t, fold, bytes, i, k);
    }
  }

  // ---------- The text stays well formed ----------

  // Characters are taken whole: bytes from o on agree within each character of t.
  ghost predicate Whole(t: Text, bytes: set<nat>, o: nat)
    requires WellFormed(t)
    decreases |t|
  {
    t == [] ||
    var w := CharLength(t[0]);
    ((forall i :: o <= i < o + w ==> i in bytes) || (forall i :: o <= i < o + w ==> i !in bytes)) &&
    Whole(t[w..], bytes, o + w)
  }

  ghost function StarredFrom(t: Text, bytes: set<nat>, o: nat): (r: Text)
    ensures |r| == |t| && forall i :: 0 <= i < |t| ==> r[i] == if o + i in bytes then STAR else t[i]
  {
    seq(|t|, i requires 0 <= i < |t| => if o + i in bytes then STAR else t[i])
  }

  // The bytes of the first character are taken as a whole, and those of the rest too.
  lemma WholeParts(t: Text, bytes: set<nat>, o: nat)
    requires WellFormed(t) && t != [] && Whole(t, bytes, o)
    ensures var w := CharLength(t[0]);
            1 <= w <= |t| && GoodChar(t[..w]) && WellFormed(t[w..]) && Whole(t[w..], bytes, o + w) &&
            ((forall i :: o <= i < o + w ==> i in bytes) || (forall i :: o <= i < o + w ==> i !in bytes))
  {
    hide GoodChar; hide CharLength;
  }

  lemma NothingWellFormed(t: Text)
    requires |t| == 0
    ensures WellFormed(t)
  {}

  lemma {:induction false} StarredWellFormed(t: Text, bytes: set<nat>, o: nat)
    requires WellFormed(t) && Whole(t, bytes, o)
    ensures WellFormed(StarredFrom(t, bytes, o))
    decreases |t|
  {
    if t == [] {
      NothingWellFormed(StarredFrom(t, bytes, o));
    } else {
      hide WellFormed; hide Whole; hide GoodChar; hide CharLength; hide StarredFrom;
      var w := CharLength(t[0]);
      WholeParts(t, bytes, o);
      StarredWellFormed(t[w..], bytes, o + w);
      StarredTail(t, bytes, o, w);
      if o in bytes {
        Stars(StarredFrom(t, bytes, o), w);
      } else {
        FirstKept(t, bytes, o, w);
      }
    }
  }

  lemma FirstKept(t: Text, bytes: set<nat>, o: nat, w: nat)
    requires 1 <= w <= |t| && w == CharLength(t[0]) && GoodChar(t[..w]) && (forall i :: o <= i < o + w ==> i !in bytes)
    requires WellFormed(StarredFrom(t, bytes, o)[w..])
    ensures WellFormed(StarredFrom(t, bytes, o))
  {
    hide GoodChar; hide WellFormed; hide CharLength;
    var r := StarredFrom(t, bytes, o);
    assert r[..w] == t[..w];
    assert r[0] == t[0];
    CharBefore(r, w);
  }

  lemma StarredTail(t: Text, bytes: set<nat>, o: nat, w: nat)
    requires w <= |t|
    ensures StarredFrom(t, bytes, o)[w..] == StarredFrom(t[w..], bytes, o + w)
  {
    var r, rest := StarredFrom(t, bytes, o), StarredFrom(t[w..], bytes, o + w);
    forall i | 0 <= i < |rest| ensures rest[i] == r[w..][i] {
      assert o + w + i == o + (w + i);
    }
  }

  lemma CharBefore(t: Text, w: nat)
    requires 1 <= w <= |t| && w == CharLength(t[0]) && GoodChar(t[..w]) && WellFormed(t[w..])
    ensures WellFormed(t)
  {}

  lemma OneStar(c: Text)
    requires c == [STAR]
    ensures GoodChar(c) && CharLength(c[0]) == 1
  {}

  // Stars before well-formed text.
  lemma {:induction false} Stars(t: Text, w: nat)
    requires w <= |t| && WellFormed(t[w..]) && forall i :: 0 <= i < w ==> t[i] == STAR
    ensures WellFormed(t)
    decreases w
  {
    hide WellFormed; hide GoodChar;
    if w == 0 {
      assert t[0..] == t;
    } else {
      OneStar(t[..1]);
      assert t[1..][w - 1..] == t[w..];
      Stars(t[1..], w - 1);
      CharBefore(t, 1);
    }
  }

  // The bytes of character a.
  ghost predicate OfChar(cs: seq<Text>, a: nat, x: nat) {
    a < |cs| && Offset(cs, a) <= x < Offset(cs, a + 1)
  }

  // For every character, all of its bytes are taken or none.
  ghost predicate TakesWhole(cs: seq<Text>, bytes: set<nat>) {
    forall a: nat, x: nat, y: nat :: OfChar(cs, a, x) && OfChar(cs, a, y) ==> (x in bytes <==> y in bytes)
  }

  lemma {:induction false} WholeFrom(t: Text, bytes: set<nat>, a: nat)
    requires WellFormed(t) && a <= |Split(t)| && TakesWhole(Split(t), bytes)
    ensures Offset(Split(t), a) <= |t| && WellFormed(t[Offset(Split(t), a)..])
    ensures Whole(t[Offset(Split(t), a)..], bytes, Offset(Split(t), a))
    decreases |Split(t)| - a
  {
    hide Split; hide WellFormed; hide Whole; hide GoodChar; hide CharLength; hide Offset; hide TakesWhole;
    TextFrom(t, a, false);
    if a < |Split(t)| {
      WholeFrom(t, bytes, a + 1);
      CharAt(t, a);
      WholeChar(t, bytes, a);
    } else {
      OffsetEnd(t);
      assert t[Offset(Split(t), a)..] == [];
      NoneWhole(bytes, Offset(Split(t), a));
    }
  }

  lemma NoneWhole(bytes: set<nat>, o: nat)
    ensures WellFormed([]) && Whole([], bytes, o)
  {}

  lemma WholeChar(t: Text, bytes: set<nat>, a: nat)
    requires WellFormed(t) && a < |Split(t)| && TakesWhole(Split(t), bytes)
    requires Offset(Split(t), a) < |t| && WellFormed(t[Offset(Split(t), a)..])
    requires Offset(Split(t), a + 1) == Offset(Split(t), a) + CharLength(t[Offset(Split(t), a)..][0]) <= |t|
    requires WellFormed(t[Offset(Split(t), a + 1)..])
    requires Whole(t[Offset(Split(t), a + 1)..], bytes, Offset(Split(t), a + 1))
    requires 1 <= CharLength(t[Offset(Split(t), a)..][0])
    ensures Whole(t[Offset(Split(t), a)..], bytes, Offset(Split(t), a))
  {
    hide Split; hide WellFormed; hide GoodChar; hide CharLength; hide Offset;
    var cs, o := Split(t), Offset(Split(t), a);
    var rest := t[o..];
    var w := CharLength(rest[0]);
    assert rest[w..] == t[o + w..];
    assert OfChar(cs, a, o);
    forall i | o <= i < o + w ensures i in bytes <==> o in bytes { assert OfChar(cs, a, i); }
  }

  lemma CharAt(t: Text, a: nat)
    requires WellFormed(t) && a < |Split(t)|
    ensures var o := Offset(Split(t), a);
            o < |t| && 1 <= CharLength(t[o..][0]) && Offset(Split(t), a + 1) == o + CharLength(t[o..][0])
  {
    TextFrom(t, a, false);
    TextTail(t[Offset(Split(t), a)..], false);
    assert Split(t)[a..][0] == Split(t)[a];
  }

  lemma {:induction false} OffsetMonotone(cs: seq<Text>, a: nat, b: nat)
    requires a <= b <= |cs|
    ensures Offset(cs, a) <= Offset(cs, b)
  {
    if a < b { OffsetMonotone(cs, a, b - 1); }
  }

  // A range of characters takes characters whole.
  lemma RangeWhole(cs: seq<Text>, from: nat, to: nat, a: nat, x: nat, y: nat)
    requires from <= to <= |cs| && OfChar(cs, a, x) && OfChar(cs, a, y) && Offset(cs, from) <= x < Offset(cs, to)
    ensures Offset(cs, from) <= y < Offset(cs, to)
  {
    if a < from { OffsetMonotone(cs, a + 1, from); } else { OffsetMonotone(cs, from, a); }
    if a < to { OffsetMonotone(cs, a + 1, to); } else { OffsetMonotone(cs, to, a); }
  }

  // An occurrence of a pattern is a range of characters.
  lemma OccurrenceRange(patterns: seq<Text>, i: nat, t: Text, fold: bool, k: nat) returns (from: nat, to: nat)
    requires Acceptable(patterns, fold) && WellFormed(t) && i < |patterns| && patterns[i] != []
    requires OccursAt(patterns[i], t, k, fold)
    ensures from <= to <= |Split(t)| && Offset(Split(t), from) == k && Offset(Split(t), to) == k + |patterns[i]|
  {
    hide Split; hide Codes; hide OccursAt; hide Supported; hide WellFormed; hide Offset;
    from := BytesToCodes(patterns[i], t, k, fold);
    CodesToBytes(patterns[i], t, from, fold);
    to := from + |Codes(patterns[i], fold)|;
  }

  // What the patterns cover are whole characters.
  lemma CoveredWhole(patterns: seq<Text>, t: Text, fold: bool, a: nat, x: nat, y: nat)
    requires Acceptable(patterns, fold) && WellFormed(t) && OfChar(Split(t), a, x) && OfChar(Split(t), a, y)
    requires Covered(patterns, t, fold, x)
    ensures Covered(patterns, t, fold, y)
  {
    var i: nat, k: nat :| i < |patterns| && CoveredBy(patterns[i], t, fold, k, x);
    hide Split; hide OccursAt; hide WellFormed; hide Offset; hide Acceptable;
    var from, to := OccurrenceRange(patterns, i, t, fold, k);
    RangeWhole(Split(t), from, to, a, x, y);
    assert CoveredBy(patterns[i], t, fold, k, y);
  }

  // Censoring whole characters leaves well-formed text of the same length.
  lemma CensoredWellFormed(t: Text, bytes: set<nat>)
    requires WellFormed(t) && TakesWhole(Split(t), bytes)
    ensures WellFormed(Starred(t, bytes))
  {
    WholeFrom(t, bytes, 0);
    assert t[0..] == t;
    StarredWellFormed(t, bytes, 0);
    assert Starred(t, bytes) == StarredFrom(t, bytes, 0);
  }

  // ---------- One pass, and a second ----------

  // The bytes are exactly those that a search covers.
  ghost predicate Exactly(patterns: seq<Text>, t: Text, fold: bool, bytes: set<nat>) {
    forall x :: x in bytes <==> Covered(patterns, t, fold, x)
  }

  lemma WellFormedAfter(patterns: seq<Text>, t: Text, fold: bool, bytes: set<nat>)
    requires Acceptable(patterns, fold) && WellFormed(t) && Exactly(patterns, t, fold, bytes)
    ensures WellFormed(Starred(t, bytes))
  {
    forall a: nat, x: nat, y: nat | OfChar(Split(t), a, x) && OfChar(Split(t), a, y)
      ensures x in bytes <==> y in bytes
    {
      if Covered(patterns, t, fold, x) { CoveredWhole(patterns, t, fold, a, x, y); }
      if Covered(patterns, t, fold, y) { CoveredWhole(patterns, t, fold, a, y, x); }
    }
    CensoredWellFormed(t, bytes);
  }

  // Censoring what the patterns cover leaves well-formed text of the same length without any
  // of the patterns, and a second pass changes nothing.
  lemma OnePassIsEnough(patterns: seq<Text>, t: Text, fold: bool, bytes: set<nat>, again: set<nat>)
    requires Acceptable(patterns, fold) && WellFormed(t) && Exactly(patterns, t, fold, bytes)
    requires forall i :: 0 <= i < |patterns| ==> STAR !in patterns[i]
    requires Exactly(patterns, Starred(t, bytes), fold, again)
    ensures WellFormed(Starred(t, bytes)) && |Starred(t, bytes)| == |t|
    ensures forall i: nat, k: nat :: i < |patterns| && OccursAt(patterns[i], Starred(t, bytes), k, fold) ==>
            patterns[i] == []
    ensures again == {} && Starred(Starred(t, bytes), again) == Starred(t, bytes)
  {
    WellFormedAfter(patterns, t, fold, bytes);
    forall i: nat, k: nat | i < |patterns| && OccursAt(patterns[i], Starred(t, bytes), k, fold)
      ensures patterns[i] == []
    {
      if patterns[i] != [] { NoneLeft(patterns, t, fold, bytes, i, k); }
    }
    forall x | x in again ensures false {
      NothingCovered(patterns, t, fold, bytes, x);
    }
  }

  // The second search of a text that was censored at what the first found.
  lemma SecondSearch(patterns: seq<Text>, t: Text, fold: bool, first: seq<Match>, again: seq<Match>)
    requires Acceptable(patterns, fold) && WellFormed(t) && Exactly(patterns, t, fold, Cover(first))
    requires forall i :: 0 <= i < |patterns| ==> STAR !in patterns[i]
    requires Exactly(patterns, Starred(t, Cover(first)), fold, Cover(again))
    requires forall j :: 0 <= j < |again| ==> again[j].size > 0
    ensures again == []
  {
    hide Cover; hide Exactly;
    OnePassIsEnough(patterns, t, fold, Cover(first), Cover(again));
    NothingFound(again);
  }

  // Searching, censoring, searching and censoring again: the second search finds nothing.
  method CensorTwice(trie: DoubleArrayTrie, buffer: array<Byte>) returns (again: seq<Match>)
    requires trie.Ready() && WellFormed(buffer[..])
    requires forall i :: 0 <= i < |trie.patterns| ==> STAR !in trie.patterns[i]
    modifies buffer
    ensures again == [] && WellFormed(buffer[..])
    ensures forall x :: 0 <= x < buffer.Length ==>
              buffer[x] == if Covered(trie.patterns, old(buffer[..]), trie.ignoreCase, x) then 42 else old(buffer[x])
  {
    hide WellFormed; hide Cover; hide Covered; hide Acceptable; hide Machine; hide StarredPart;
    ghost var t := buffer[..];
    trie.Accepted();
    var first := trie.Search(buffer[..]);
    WholePart(t, Cover(first));
    Censor(buffer, 0, buffer.Length, first);
    WellFormedAfter(trie.patterns, t, trie.ignoreCase, Cover(first));
    again := trie.Search(buffer[..]);
    SecondSearch(trie.patterns, t, trie.ignoreCase, first, again);
    NoCover();
    WholePart(buffer[..], Cover([]));
    Censor(buffer, 0, buffer.Length, again);
  }

  lemma WholePart(t: Text, bytes: set<nat>)
    ensures StarredPart(t, 0, |t|, bytes) == Starred(t, bytes) && Starred(t, {}) == t
  {}

  lemma NothingFound(ms: seq<Match>)
    requires Cover(ms) == {} && forall j :: 0 <= j < |ms| ==> ms[j].size > 0
    ensures ms == []
  {
    if ms != [] {
      InCover(ms, ms[0].index);
      SpanIs(ms[0]);
    }
  }

  // ---------- Hits given in characters ----------

  ghost function Offsets(cs: seq<Text>): (m: map<nat, nat>)
    ensures forall a: nat :: a in m <==> a <= |cs|
    ensures forall a :: a in m ==> m[a] == Offset(cs, a)
  {
    map a | 0 <= a <= |cs| :: Offset(cs, a)
  }

  // Maps the number of each character to its byte position, and their count to the length.
  method CharToByteMap(t: Text) returns (m: map<nat, nat>)
    requires WellFormed(t)
    ensures m == Offsets(Split(t))
  {
    hide Split; hide WellFormed; hide Offset;
    m := map[];
    OffsetNone(Split(t));
    var count, i := 0, 0;
    while i < |t|
      invariant 0 <= i <= |t| && 0 <= count <= |Split(t)| && i == Offset(Split(t), count)
      invariant (forall a: nat :: a in m <==> a < count) && forall a :: a in m ==> m[a] == Offset(Split(t), a)
    {
      NextChar(t, count, i);
      m := m[count := i];
      i := i + CharLength(t[i]);
      count := count + 1;
    }
    NoMoreChars(t, count);
    m := m[count := |t|];
  }

  lemma OffsetNone(cs: seq<Text>)
    ensures Offset(cs, 0) == 0
  {}

  lemma NextChar(t: Text, a: nat, i: nat)
    requires WellFormed(t) && a <= |Split(t)| && i == Offset(Split(t), a) < |t|
    ensures a < |Split(t)| && 1 <= CharLength(t[i]) && Offset(Split(t), a + 1) == i + CharLength(t[i]) <= |t|
  {
    hide Split; hide WellFormed; hide Offset; hide CharLength;
    MoreChars(t, a);
    CharAt(t, a);
    assert t[i..][0] == t[i];
    OffsetMonotone(Split(t), a + 1, |Split(t)|);
    OffsetEnd(t);
  }

  lemma MoreChars(t: Text, a: nat)
    requires WellFormed(t) && a <= |Split(t)| && Offset(Split(t), a) < |t|
    ensures a < |Split(t)|
  {
    OffsetEnd(t);
  }

  lemma NoMoreChars(t: Text, a: nat)
    requires WellFormed(t) && a <= |Split(t)| && Offset(Split(t), a) == |t|
    ensures a == |Split(t)|
  {
    if a < |Split(t)| { CharAt(t, a); }
  }

  // Byte x belongs to a hit given in characters that lies in the text.
  ghost predicate InCharHit(cs: seq<Text>, m: Match, x: nat) {
    m.index + m.size <= |cs| && Offset(cs, m.index) <= x < Offset(cs, m.index + m.size)
  }

  ghost predicate InCharHits(cs: seq<Text>, hits: seq<Match>, x: nat) {
    exists j :: 0 <= j < |hits| && InCharHit(cs, hits[j], x)
  }

  // Hits in characters become hits in bytes; those that do not lie in the text are dropped.
  method CharsToBytes(t: Text, hits: seq<Match>) returns (ms: seq<Match>)
    requires WellFormed(t)
    ensures InsideText(ms, |t|)
    ensures forall x :: x in Cover(ms) <==> InCharHits(Split(t), hits, x)
  {
    hide Split; hide WellFormed; hide Cover; hide Span; hide Offset;
    ms := [];
    NoCover();
    if hits == [] { return; }
    var offsets := CharToByteMap(t);
    ghost var cs := Split(t);
    var j := 0;
    while j < |hits|
      invariant 0 <= j <= |hits| && InsideText(ms, |t|)
      invariant forall x :: x in Cover(ms) <==> exists k :: 0 <= k < j && InCharHit(cs, hits[k], x)
    {
      var from, to := hits[j].index, hits[j].index + hits[j].size;
      if from in offsets && to in offsets {
        OffsetMonotone(cs, from, to);
        OffsetMonotone(cs, to, |cs|);
        OffsetEnd(t);
        var m := Match(offsets[from], offsets[to] - offsets[from]);
        CoverSnoc(ms, m);
        SpanIs(m);
        ms := ms + [m];
      }
      j := j + 1;
    }
  }

  lemma NoCover()
    ensures Cover([]) == {}
  {}

  lemma SpanIs(m: Match)
    ensures forall x: nat :: x in Span(m) <==> m.index <= x < m.index + m.size
  {
    assert forall x: nat :: Inside(m, x) <==> m.index <= x < m.index + m.size;
  }

  // ---------- A task ----------

  // What a task promises for its text: on well-formed text it catches every occurrence.
  ghost predicate CatchesText(patterns: seq<Text>, t: Text, fold: bool, bytes: set<nat>) {
    WellFormed(t) ==> Catches(patterns, t, fold, bytes)
  }

  // Regular expression hits first, then the patterns.
  method MatchedByRule(trie: DoubleArrayTrie, t: Text, regexHits: seq<Match>) returns (ms: seq<Match>)
    requires trie.Ready() && InsideText(regexHits, |t|)
    ensures InsideText(ms, |t|)
    ensures WellFormed(t) ==>
            forall x :: x in Cover(ms) <==> x in Cover(regexHits) || Covered(trie.patterns, t, trie.ignoreCase, x)
  {
    hide Cover;
    var found := trie.Search(t);
    ms := regexHits + found;
    CoverJoin(regexHits, found);
  }

  lemma {:induction false} CoverJoin(a: seq<Match>, b: seq<Match>)
    ensures Cover(a + b) == Cover(a) + Cover(b)
  {
    if b == [] {
      assert a + b == a;
    } else {
      CoverJoin(a, b[..|b| - 1]);
      assert (a + b)[..|a + b| - 1] == a + b[..|b| - 1];
    }
  }

  // Censors the part of the buffer from a to b at everything that matched, and says if
  // anything did.
  method CensorTask(trie: DoubleArrayTrie, buffer: array<Byte>, a: nat, b: nat, regexHits: seq<Match>, learning: bool,
                    learnedHits: seq<Match>)
    returns (censored: bool, ghost bytes: set<nat>)
    requires trie.Ready() && a <= b <= buffer.Length && InsideText(regexHits, b - a)
    requires learning ==> WellFormed(buffer[a..b])
    modifies buffer
    ensures buffer[..] == StarredPart(old(buffer[..]), a, b, bytes)
    ensures !censored ==> bytes == {} && buffer[..] == old(buffer[..])
    ensures CatchesText(trie.patterns, old(buffer[a..b]), trie.ignoreCase, bytes)
    ensures WellFormed(old(buffer[a..b])) ==>
              forall x :: x in bytes <==>
                x in Cover(regexHits) || Covered(trie.patterns, old(buffer[a..b]), trie.ignoreCase, x) ||
                (learning && InCharHits(Split(old(buffer[a..b])), learnedHits, x))
  {
    hide Cover; hide Split; hide WellFormed;
    var t := buffer[a..b];
    var ms := MatchedByRule(trie, t, regexHits);
    if learning {
      var learned := CharsToBytes(t, learnedHits);
      CoverJoin(ms, learned);
      ms := ms + learned;
    }
    censored, bytes := |ms| > 0, Cover(ms);
    NothingStarred(buffer[..], a, b);
    if censored { Censor(buffer, a, b, ms); }
  }
}
