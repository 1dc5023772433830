// What a search means: running the packed machine over a text, merging its hits, and the
// bytes that pattern occurrences cover.
module Searching {
  import opened Utf8
  import opened Automaton
  import opened PatternTrie
  import opened FailLinks
  import opened Allocation
  import opened Placing
  import opened Tour
  import opened Running
  import opened LinkedMachine

  // ---------- One turn of the reading loop ----------

  // In any arrays, packed or not: the code leads on, or the root stays where it is, or the fail
  // link is the next to try.
  datatype Turn = Goes(next: nat) | Stays | Fails(next: nat)

  function TurnAt(a: Arrays, s: nat, c: nat): Turn
    requires s < |a.base| && s < |a.fail|
  {
    if Moves(a.base, a.check, s, c) then Goes(a.base[s] + c) else if s == 1 then Stays else Fails(a.fail[s])
  }

  // The fail links lead to slots.
  ghost predicate LinksInside(a: Arrays) {
    |a.base| == |a.check| == |a.fail| == |a.output| && forall x :: 0 <= x < |a.fail| ==> a.fail[x] < |a.fail|
  }

  // The last turn when code c is read at slot s, or turn number n if there are more than n.
  ghost function After(a: Arrays, s: nat, c: nat, n: nat): Turn
    requires LinksInside(a) && s < |a.base|
    decreases n
  {
    var turn := TurnAt(a, s, c);
    if turn.Fails? && n > 0 then After(a, turn.next, c, n - 1) else turn
  }

  // The loop never ends.
  ghost predicate Endless(a: Arrays, s: nat, c: nat)
    requires LinksInside(a) && s < |a.base|
  {
    forall n :: After(a, s, c, n).Fails?
  }

  // ---------- The machine's steps ----------

  // Slot s belongs to node k, which is the state after reading the codes u.
  ghost predicate At(p: Plan, u: Path, s: nat, k: nat) {
    k < |p.nodes| == |p.paths| == |p.slot| && s == p.slot[k] && IsState(PathSet(p.paths), u, p.paths[k])
  }

  // Slot s belongs to node k, and no longer suffix of u can be extended by code c.
  ghost predicate Trying(p: Plan, u: Path, c: nat, s: nat, k: nat) {
    k < |p.nodes| == |p.paths| == |p.slot| && s == p.slot[k] && Candidate(PathSet(p.paths), u, c, p.paths[k])
  }

  lemma MachineParts(p: Plan, P: set<Path>, a: Arrays)
    requires Machine(p, P, a)
    ensures Linked(p.nodes, p.paths, p.parents) && P <= PathSet(p.paths) && FailsInside(p.nodes) && Distinct(p.slot)
    ensures PrefixClosed(PathSet(p.paths))
    ensures Packed(p.nodes, a.base, a.check, p.slot) && LinksPacked(p.nodes, a.fail, p.slot)
    ensures OutputsPacked(p.nodes, a.output, p.slot)
    ensures |p.nodes| == |p.paths| == |p.slot| > 0 && p.paths[0] == []
  {
    PathsArePrefixClosed(p.nodes, p.paths, p.parents);
  }

  lemma AtStart(p: Plan, P: set<Path>, a: Arrays)
    requires Machine(p, P, a)
    ensures At(p, [], 1, 0)
  {
    hide Linked; hide OutputsPacked; hide LinksPacked; hide Final; hide PrefixClosed; hide LinkedTrie; hide Machine;
    MachineParts(p, P, a);
    assert p.paths[0] in PathSet(p.paths);
  }

  lemma SlotInArrays(p: Plan, P: set<Path>, a: Arrays, k: nat)
    requires Machine(p, P, a) && k < |p.nodes|
    ensures |p.slot| == |p.nodes| && p.slot[k] < |a.base| == |a.check| && p.slot[k] < |a.fail| && p.slot[k] < |a.output|
    ensures p.slot[k] == 1 <==> k == 0
  {}

  lemma TryFirst(p: Plan, P: set<Path>, a: Arrays, u: Path, c: nat, s: nat, k: nat)
    requires Machine(p, P, a) && At(p, u, s, k)
    ensures Trying(p, u, c, s, k)
  {
    hide Linked; hide Packed; hide OutputsPacked; hide LinksPacked; hide Final;
    MachineParts(p, P, a);
    CandidateFirst(PathSet(p.paths), u, c, p.paths[k]);
  }

  lemma MoveView(p: Plan, P: set<Path>, a: Arrays, k: nat, c: nat)
    requires Machine(p, P, a) && k < |p.nodes|
    ensures |p.slot| == |p.nodes| && p.slot[k] < |a.base| && MovesToChild(p.nodes, a.base, a.check, p.slot, k, c)
    ensures |p.paths| == |p.nodes| && (c in p.nodes[k].children <==> p.paths[k] + [c] in PathSet(p.paths))
    ensures c in p.nodes[k].children ==>
            p.nodes[k].children[c] < |p.nodes| && p.paths[p.nodes[k].children[c]] == p.paths[k] + [c]
  {
    hide Linked;
    MachineParts(p, P, a);
    ChildIffPath(p.nodes, p.paths, p.parents, k, c);
    if c in p.nodes[k].children { ChildPath(p.nodes, p.paths, p.parents, k, c); }
  }

  // No move from a node below the root: the fail link is the next to try.
  lemma TryNext(p: Plan, P: set<Path>, a: Arrays, u: Path, c: nat, s: nat, k: nat)
    requires Machine(p, P, a) && Trying(p, u, c, s, k) && k != 0 && s < |a.base| && !Moves(a.base, a.check, s, c)
    ensures p.nodes[k].fail < |p.nodes| && s < |a.fail| && |p.paths[p.nodes[k].fail]| < |p.paths[k]|
    ensures Trying(p, u, c, a.fail[s], p.nodes[k].fail)
  {
    hide Linked; hide Packed; hide OutputsPacked; hide IsOutput; hide PathSet;
    MoveView(p, P, a, k, c);
    MachineParts(p, P, a);
    assert Final(p.nodes, p.paths, P, k);
    CandidateNext(PathSet(p.paths), u, c, p.paths[k], p.paths[p.nodes[k].fail]);
  }

  // A move leads to the state after one more code.
  lemma TryHit(p: Plan, P: set<Path>, a: Arrays, u: Path, c: nat, s: nat, k: nat) returns (m: nat)
    requires Machine(p, P, a) && Trying(p, u, c, s, k) && s < |a.base| && Moves(a.base, a.check, s, c)
    ensures At(p, u + [c], a.base[s] + c, m)
  {
    hide Linked; hide Packed; hide OutputsPacked; hide LinksPacked; hide Final; hide PathSet; hide IsState;
    hide Candidate;
    MoveView(p, P, a, k, c);
    MachineParts(p, P, a);
    if c in p.nodes[k].children {
      m := p.nodes[k].children[c];
      CandidateHit(PathSet(p.paths), u, c, p.paths[k]);
    } else {
      m := 0;
      assert [] + [c] == [c];
      CandidateMiss(PathSet(p.paths), u, c);
    }
  }

  // At the root without a move, the root is the state.
  lemma TryMiss(p: Plan, P: set<Path>, a: Arrays, u: Path, c: nat, s: nat)
    requires Machine(p, P, a) && Trying(p, u, c, s, 0) && s < |a.base| && !Moves(a.base, a.check, s, c)
    ensures At(p, u + [c], s, 0)
  {
    hide Linked; hide Packed; hide OutputsPacked; hide LinksPacked; hide Final; hide PathSet; hide IsState;
    hide Candidate;
    MoveView(p, P, a, 0, c);
    MachineParts(p, P, a);
    assert [] + [c] == [c];
    CandidateMiss(PathSet(p.paths), u, c);
  }

  // The output of the state is the size of the longest pattern that ends here.
  lemma OutputAtState(p: Plan, P: set<Path>, a: Arrays, u: Path, s: nat, k: nat)
    requires Machine(p, P, a) && At(p, u, s, k)
    ensures s < |a.output| && IsOutput(P, u, a.output[s])
  {
    hide Linked; hide Packed; hide LinksPacked; hide IsState; hide PathSet; hide PrefixClosed;
    MachineParts(p, P, a);
    assert Final(p.nodes, p.paths, P, k);
    if k == 0 {
      assert IsOutput(P, p.paths[0], 0);
    }
    OutputOfState(PathSet(p.paths), P, u, p.paths[k], a.output[s]);
  }

  // ---------- Sizes ----------

  lemma {:induction false} SuffixSize(s: Path, u: Path)
    requires IsSuffix(s, u)
    ensures Size(s) <= Size(u)
    decreases |u|
  {
    if s != [] {
      assert s[|s| - 1] == u[|u| - 1];
      assert IsSuffix(s[..|s| - 1], u[..|u| - 1]) by { assert u[..|u| - 1][|u| - |s|..] == u[|u| - |s|..][..|s| - 1]; }
      SuffixSize(s[..|s| - 1], u[..|u| - 1]);
    }
  }

  lemma OutputFits(P: set<Path>, u: Path, z: nat)
    requires IsOutput(P, u, z)
    ensures z <= Size(u)
  {
    if z > 0 {
      var p :| p in P && IsSuffix(p, u) && Size(p) == z;
      SuffixSize(p, u);
    }
  }

  // No character is shorter than its code says, even a malformed one.
  lemma CodeNotWider(c: Text, fold: bool)
    requires 1 <= |c| <= 4 && CharLength(c[0]) == |c|
    ensures Width(Code(c, fold)) <= |c|
  {}

  // ---------- Hits ----------

  datatype Match = Match(index: nat, size: nat)

  predicate Inside(m: Match, x: nat) { m.index <= x < m.index + m.size }

  function Span(m: Match): set<nat> {
    set x | m.index <= x < m.index + m.size && Inside(m, x)
  }

  // The bytes in any of the matches.
  function Cover(ms: seq<Match>): set<nat> {
    if ms == [] then {} else Cover(ms[..|ms| - 1]) + Span(ms[|ms| - 1])
  }

  lemma CoverSnoc(ms: seq<Match>, m: Match)
    ensures Cover(ms + [m]) == Cover(ms) + Span(m)
  {
    assert (ms + [m])[..|ms|] == ms;
  }

  // A hit that reaches over the last one may replace it.
  lemma CoverReplace(ms: seq<Match>, m: Match)
    requires ms != [] && m.index <= ms[|ms| - 1].index && ms[|ms| - 1].index + ms[|ms| - 1].size <= m.index + m.size
    ensures Cover(ms[..|ms| - 1] + [m]) == Cover(ms) + Span(m)
  {
    CoverSnoc(ms[..|ms| - 1], m);
  }

  lemma {:induction false} InCover(ms: seq<Match>, x: nat)
    ensures x in Cover(ms) <==> exists j :: 0 <= j < |ms| && x in Span(ms[j])
  {
    if ms != [] {
      var rest := ms[..|ms| - 1];
      InCover(rest, x);
      if x in Span(ms[|ms| - 1]) { assert 0 <= |ms| - 1 < |ms|; }
      if j :| 0 <= j < |rest| && x in Span(rest[j]) { assert x in Span(ms[j]); }
      if j :| 0 <= j < |ms| && x in Span(ms[j]) && x !in Span(ms[|ms| - 1]) { assert x in Span(rest[j]); }
    }
  }

  // One hit for every code read: the longest pattern that ends there.
  ghost predicate HitsOf(P: set<Path>, u: Path, ends: seq<nat>, hits: seq<Match>) {
    |hits| == |ends| == |u| && forall e :: 0 <= e < |u| ==> HitAt(P, u, ends, hits, e)
  }

  ghost predicate HitAt(P: set<Path>, u: Path, ends: seq<nat>, hits: seq<Match>, e: nat)
    requires e < |u| == |ends| == |hits|
  {
    hits[e].index + hits[e].size == ends[e] && IsOutput(P, u[..e + 1], hits[e].size)
  }

  lemma HitsGrow(P: set<Path>, u: Path, ends: seq<nat>, hits: seq<Match>, c: nat, m: Match)
    requires HitsOf(P, u, ends, hits) && IsOutput(P, u + [c], m.size)
    ensures HitsOf(P, u + [c], ends + [m.index + m.size], hits + [m])
  {
    hide IsOutput;
    var u', ends', hits' := u + [c], ends + [m.index + m.size], hits + [m];
    forall e | 0 <= e < |u'| ensures HitAt(P, u', ends', hits', e) {
      if e < |u| {
        assert HitAt(P, u, ends, hits, e);
        assert u'[..e + 1] == u[..e + 1];
      } else {
        assert u'[..e + 1] == u';
      }
    }
  }

  // The result with a hit added: in the place of the last one if it starts no later.
  function Added(found: seq<Match>, m: Match): seq<Match> {
    if found != [] && m.index <= found[|found| - 1].index then found[..|found| - 1] + [m] else found + [m]
  }

  function End(m: Match): nat { m.index + m.size }

  ghost predicate Rising(ms: seq<Match>) {
    forall j, k :: 0 <= j < k < |ms| ==> End(ms[j]) < End(ms[k])
  }

  ghost predicate UpTo(ms: seq<Match>, i: nat) {
    forall j :: 0 <= j < |ms| ==> End(ms[j]) <= i
  }

  ghost predicate RealHits(ms: seq<Match>) {
    forall j :: 0 <= j < |ms| ==> ms[j].size > 0
  }

  lemma UpToLater(ms: seq<Match>, i: nat, j: nat)
    requires UpTo(ms, i) && i <= j
    ensures UpTo(ms, j)
  {}

  // Adds a hit to the result. It takes the place of the last one if it reaches over it.
  method AddHit(found: seq<Match>, m: Match, lastChar: nat) returns (found': seq<Match>)
    requires m.size > 0 && lastChar < End(m)
    requires RealHits(found) && UpTo(found, lastChar) && Rising(found)
    ensures Cover(found') == Cover(found) + Span(m)
    ensures RealHits(found') && UpTo(found', End(m)) && Rising(found')
    ensures found' == Added(found, m)
  {
    hide Cover; hide Span;
    if found != [] {
      var last := found[|found| - 1];
      if m.index <= last.index && lastChar >= last.index + (last.size - 1) {
        CoverReplace(found, m);
        return found[..|found| - 1] + [m];
      }
    }
    CoverSnoc(found, m);
    return found + [m];
  }

  // ---------- Occurrences ----------

  // Byte x of the text belongs to an occurrence of a pattern.
  ghost predicate Covered(patterns: seq<Text>, t: Text, fold: bool, x: nat) {
    exists i: nat, k: nat :: i < |patterns| && CoveredBy(patterns[i], t, fold, k, x)
  }

  ghost predicate CoveredBy(p: Text, t: Text, fold: bool, k: nat, x: nat) {
    OccursAt(p, t, k, fold) && k <= x < k + |p|
  }

  // A pattern of n bytes occurs at k.
  ghost predicate Occurrence(patterns: seq<Text>, t: Text, fold: bool, k: nat, n: nat) {
    exists i: nat :: i < |patterns| && |patterns[i]| == n > 0 && OccursAt(patterns[i], t, k, fold)
  }

  // Where the codes u and their ends are what has been read of the text.
  ghost predicate Reading(t: Text, fold: bool, u: Path, ends: seq<nat>, i: nat) {
    WellFormed(t) && i <= |t| && WellFormed(t[i..]) && |ends| == |u| <= |Split(t)| &&
    u + Codes(t[i..], fold) == Codes(t, fold) &&
    i == Offset(Split(t), |u|) && forall e :: 0 <= e < |ends| ==> ends[e] == Offset(Split(t), e + 1)
  }

  lemma ReadingStart(t: Text, fold: bool)
    requires WellFormed(t)
    ensures Reading(t, fold, [], [], 0)
  {
    assert t[0..] == t;
  }

  lemma ReadingNext(t: Text, fold: bool, u: Path, ends: seq<nat>, i: nat)
    requires Reading(t, fold, u, ends, i) && i < |t|
    ensures var w := CharLength(t[i]);
            1 <= w && i + w <= |t| && Reading(t, fold, u + [Code(t[i..i + w], fold)], ends + [i + w], i + w)
  {
    hide Code; hide GoodChar; hide Reading; hide Split; hide WellFormed; hide Codes; hide CharLength; hide Offset;
    ReadingRest(t, fold, u, ends, i);
    var rest, w := t[i..], CharLength(t[i]);
    assert rest[0] == t[i];
    TextTail(rest, fold);
    assert rest[..w] == t[i..i + w] && rest[w..] == t[i + w..];
    ReadingChar(t, fold, u, ends, i, w);
    ReadingSnoc(t, fold, u, ends, i, Code(t[i..i + w], fold), i + w);
  }

  lemma ReadingRest(t: Text, fold: bool, u: Path, ends: seq<nat>, i: nat)
    requires Reading(t, fold, u, ends, i)
    ensures i <= |t| && WellFormed(t) && WellFormed(t[i..])
  {}

  lemma ReadingSnoc(t: Text, fold: bool, u: Path, ends: seq<nat>, i: nat, c: nat, j: nat)
    requires Reading(t, fold, u, ends, i) && j <= |t| && WellFormed(t[j..])
    requires Codes(t[i..], fold) == [c] + Codes(t[j..], fold)
    requires |u| < |Split(t)| && Offset(Split(t), |u| + 1) == j
    ensures Reading(t, fold, u + [c], ends + [j], j)
  {
    hide Split; hide WellFormed; hide Codes; hide Offset;
    assert u + ([c] + Codes(t[j..], fold)) == (u + [c]) + Codes(t[j..], fold);
  }

  lemma ReadingChar(t: Text, fold: bool, u: Path, ends: seq<nat>, i: nat, w: nat)
    requires Reading(t, fold, u, ends, i) && i < |t| && w == CharLength(t[i]) && i + w <= |t|
    ensures |u| < |Split(t)| && Offset(Split(t), |u| + 1) == i + w
  {
    hide Code; hide GoodChar; hide Codes;
    TextFrom(t, |u|, fold);
    TextTail(t[i..], fold);
    hide Split; hide WellFormed;
    assert Split(t)[|u|..][0] == t[i..][..w];
  }

  // When a well-formed text is read, the hits cover exactly the occurrences of the patterns.
  lemma HitsCover(t: Text, fold: bool, patterns: seq<Text>, ends: seq<nat>, hits: seq<Match>, u: Path)
    requires Acceptable(patterns, fold) && Reading(t, fold, u, ends, |t|)
    requires HitsOf(PatternCodes(patterns, fold), u, ends, hits)
    ensures forall x :: x in Cover(hits) <==> Covered(patterns, t, fold, x)
  {
    hide Acceptable; hide PatternCodes; hide HitsOf; hide Cover; hide Reading; hide OccursAt;
    forall x ensures x in Cover(hits) <==> Covered(patterns, t, fold, x) {
      InCover(hits, x);
      if x in Cover(hits) {
        var e: nat :| e < |hits| && x in Span(hits[e]);
        assert Inside(hits[e], x);
        HitOccurs(t, fold, patterns, ends, hits, u, e);
        var i: nat :| i < |patterns| && |patterns[i]| == hits[e].size && OccursAt(patterns[i], t, hits[e].index, fold);
        assert CoveredBy(patterns[i], t, fold, hits[e].index, x);
      }
      if Covered(patterns, t, fold, x) {
        var i: nat, k: nat :| i < |patterns| && CoveredBy(patterns[i], t, fold, k, x);
        var e := OccurrenceHit(t, fold, patterns, ends, hits, u, k, |patterns[i]|);
        assert Inside(hits[e], x);
      }
    }
  }

  lemma SliceOfPrefix(u: Path, a: nat, n: nat)
    requires a <= n <= |u|
    ensures u[..n][a..] == u[a..n]
  {}

  lemma AllRead(t: Text, fold: bool, u: Path, ends: seq<nat>)
    requires Reading(t, fold, u, ends, |t|)
    ensures WellFormed(t) && u == Codes(t, fold) && |u| == |ends| == |Split(t)|
    ensures forall e :: 0 <= e < |ends| ==> ends[e] == Offset(Split(t), e + 1)
  {
    assert t[|t|..] == [];
    assert u + [] == u;
  }

  lemma HitOccurs(t: Text, fold: bool, patterns: seq<Text>, ends: seq<nat>, hits: seq<Match>, u: Path, e: nat)
    requires Acceptable(patterns, fold) && Reading(t, fold, u, ends, |t|)
    requires HitsOf(PatternCodes(patterns, fold), u, ends, hits)
    requires e < |hits| && hits[e].size > 0
    ensures Occurrence(patterns, t, fold, hits[e].index, hits[e].size)
  {
    hide Codes; hide Split; hide Supported; hide WellFormed; hide Size; hide Offset; hide PatternCodes; hide Reading;
    hide OccursAt; hide Acceptable;
    AllRead(t, fold, u, ends);
    assert HitAt(PatternCodes(patterns, fold), u, ends, hits, e);
    var p :| p in PatternCodes(patterns, fold) && IsSuffix(p, u[..e + 1]) && Size(p) == hits[e].size;
    var i := PatternOf(patterns, fold, p);
    SizeOfCodes(patterns[i], fold);
    var a := e + 1 - |p|;
    SliceOfPrefix(u, a, e + 1);
    CodesToBytes(patterns[i], t, a, fold);
    assert OccursAt(patterns[i], t, Offset(Split(t), a), fold) && Offset(Split(t), a) == hits[e].index;
  }

  lemma PatternOf(patterns: seq<Text>, fold: bool, p: Path) returns (i: nat)
    requires Acceptable(patterns, fold) && p in PatternCodes(patterns, fold)
    ensures i < |patterns| && Codes(patterns[i], fold) == p && WellFormed(patterns[i]) && Supported(patterns[i], fold)
  {
    i :| 0 <= i < |patterns| && Codes(patterns[i], fold) == p;
  }

  lemma OccurrenceHit(t: Text, fold: bool, patterns: seq<Text>, ends: seq<nat>, hits: seq<Match>, u: Path,
                      k: nat, n: nat) returns (e: nat)
    requires Acceptable(patterns, fold) && Reading(t, fold, u, ends, |t|)
    requires HitsOf(PatternCodes(patterns, fold), u, ends, hits)
    requires Occurrence(patterns, t, fold, k, n)
    ensures e < |hits| == |ends| && ends[e] == k + n == hits[e].index + hits[e].size && n <= hits[e].size
  {
    hide Codes; hide Split; hide Supported; hide WellFormed; hide Size; hide OccursAt; hide Offset; hide Reading;
    AllRead(t, fold, u, ends);
    var i: nat :| i < |patterns| && |patterns[i]| == n && OccursAt(patterns[i], t, k, fold);
    var a := BytesToCodes(patterns[i], t, k, fold);
    var p := Codes(patterns[i], fold);
    SizeOfCodes(patterns[i], fold);
    CodesToBytes(patterns[i], t, a, fold);
    NoCodesNoBytes(patterns[i], fold);
    e := a + |p| - 1;
    SliceOfPrefix(u, a, e + 1);
    assert HitAt(PatternCodes(patterns, fold), u, ends, hits, e);
    assert IsSuffix(p, u[..e + 1]);
  }

  // ---------- Which hits are in the result ----------

  // The result after the hits of all the characters read.
  function Merged(hits: seq<Match>): seq<Match> {
    if hits == [] then []
    else
      var rest, m := Merged(hits[..|hits| - 1]), hits[|hits| - 1];
      if m.size == 0 then rest else Added(rest, m)
  }

  lemma MergedSnoc(hits: seq<Match>, m: Match)
    ensures Merged([]) == [] && Merged(hits + [m]) == if m.size == 0 then Merged(hits) else Added(Merged(hits), m)
  {
    assert (hits + [m])[..|hits|] == hits;
  }

  lemma NoneRising()
    ensures Rising([]) && UpTo([], 0) && RealHits([])
  {}

  lemma RisingSnoc(hits: seq<Match>, m: Match, i: nat, j: nat)
    requires Rising(hits) && UpTo(hits, i) && i < End(m) <= j
    ensures Rising(hits + [m]) && UpTo(hits + [m], j)
  {}

  // Hit number d is the next one after hit number e.
  ghost predicate NextHit(hits: seq<Match>, e: nat, d: nat) {
    e < d < |hits| && hits[d].size > 0 && forall x :: e < x < d ==> hits[x].size == 0
  }

  ghost predicate Latest(hits: seq<Match>, e: nat) {
    e < |hits| && hits[e].size > 0 && forall x :: e < x < |hits| ==> hits[x].size == 0
  }

  // A hit that the next one does not reach over.
  ghost predicate Kept(hits: seq<Match>, e: nat) {
    e < |hits| && hits[e].size > 0 && forall d: nat :: d < |hits| && NextHit(hits, e, d) ==>
      hits[e].index < hits[d].index
  }

  ghost predicate KeptAs(hits: seq<Match>, m: Match) {
    exists e: nat :: e < |hits| && Kept(hits, e) && hits[e] == m
  }

  ghost predicate MergedOk(hits: seq<Match>, r: seq<Match>) {
    Rising(r) && (forall m :: m in r <==> KeptAs(hits, m)) &&
    if r == [] then forall x :: 0 <= x < |hits| ==> hits[x].size == 0
    else exists e: nat :: e < |hits| && Latest(hits, e) && hits[e] == r[|r| - 1]
  }

  // What one more hit changes.
  lemma KeptSnoc(hits: seq<Match>, m: Match, e: nat)
    requires e < |hits|
    ensures Latest(hits, e) ==> Kept(hits, e)
    ensures Kept(hits + [m], e) <==> Kept(hits, e) && (Latest(hits, e) && m.size > 0 ==> hits[e].index < m.index)
    ensures m.size == 0 ==> (Latest(hits + [m], e) <==> Latest(hits, e))
  {
    var hits' := hits + [m];
    forall d: nat | d < |hits| ensures NextHit(hits', e, d) <==> NextHit(hits, e, d) {
      if NextHit(hits', e, d) { forall x | e < x < d ensures hits[x].size == 0 { assert hits'[x].size == 0; } }
    }
    if Latest(hits, e) && m.size > 0 { assert NextHit(hits', e, |hits|); }
    if NextHit(hits', e, |hits|) && hits[e].size > 0 {
      forall x | e < x < |hits| ensures hits[x].size == 0 { assert hits'[x].size == 0; }
    }
    if m.size == 0 && Latest(hits', e) {
      forall x | e < x < |hits| ensures hits[x].size == 0 { assert hits'[x].size == 0; }
    }
  }

  lemma NothingNew(hits: seq<Match>, r: seq<Match>, m: Match)
    requires MergedOk(hits, r) && m.size == 0
    ensures MergedOk(hits + [m], r)
  {
    hide Latest; hide Kept;
    forall x ensures x in r <==> KeptAs(hits + [m], x) {
      if e: nat :| e < |hits| && Kept(hits, e) && hits[e] == x { KeptIs(hits, e); KeptSnoc(hits, m, e); }
      if e: nat :| e <= |hits| && Kept(hits + [m], e) && (hits + [m])[e] == x {
        KeptIs(hits + [m], e);
        KeptSnoc(hits, m, e);
      }
    }
    if e: nat :| e < |hits| && Latest(hits, e) && r != [] && hits[e] == r[|r| - 1] {
      LatestIs(hits, e);
      KeptSnoc(hits, m, e);
    }
  }

  lemma KeptIs(hits: seq<Match>, e: nat)
    requires Kept(hits, e)
    ensures e < |hits| && hits[e].size > 0
  {}

  lemma LatestIs(hits: seq<Match>, e: nat)
    requires Latest(hits, e)
    ensures e < |hits| && hits[e].size > 0 && Kept(hits, e)
    ensures forall d: nat :: Latest(hits, d) ==> d == e
  {}

  lemma LatestNew(hits: seq<Match>, m: Match)
    requires m.size > 0
    ensures Latest(hits + [m], |hits|) && Kept(hits + [m], |hits|)
  {}

  lemma NewHit(hits: seq<Match>, r: seq<Match>, m: Match)
    requires MergedOk(hits, r) && m.size > 0 && Rising(hits + [m])
    ensures MergedOk(hits + [m], Added(r, m))
  {
    hide Latest; hide Kept; hide NextHit;
    var hits', r' := hits + [m], Added(r, m);
    LatestNew(hits, m);
    forall j | 0 <= j < |r| ensures End(r[j]) < End(m) {
      assert r[j] in r;
      var e: nat :| e < |hits| && Kept(hits, e) && hits[e] == r[j];
      KeptIs(hits, e);
      assert hits'[e] == hits[e] && hits'[|hits|] == m;
    }
    assert Rising(r');
    if r == [] {
      forall e: nat | e < |hits| ensures !Latest(hits, e) { if Latest(hits, e) { LatestIs(hits, e); } }
      forall x ensures x in r' <==> KeptAs(hits', x) { NewIn(hits, r, m, |hits|, x); }
    } else {
      var l: nat :| l < |hits| && Latest(hits, l) && hits[l] == r[|r| - 1];
      forall x ensures x in r' <==> KeptAs(hits', x) { NewIn(hits, r, m, l, x); }
    }
  }

  // l is the number of the latest hit before m, if there is one.
  lemma NewIn(hits: seq<Match>, r: seq<Match>, m: Match, l: nat, x: Match)
    requires MergedOk(hits, r) && m.size > 0 && Rising(hits + [m])
    requires if r == [] then l == |hits| else l < |hits| && Latest(hits, l) && hits[l] == r[|r| - 1]
    ensures x in Added(r, m) <==> KeptAs(hits + [m], x)
  {
    hide Latest; hide Kept; hide NextHit;
    var hits', r' := hits + [m], Added(r, m);
    LatestNew(hits, m);
    if r != [] { LatestIs(hits, l); }
    assert forall y :: y in r' <==> y == m || (y in r && !(r != [] && m.index <= hits[l].index && y == hits[l]));
    if x in r && x in r' && x != m {
      var e: nat :| e < |hits| && Kept(hits, e) && hits[e] == x;
      KeptIs(hits, e);
      KeptSnoc(hits, m, e);
      assert hits'[e] == x;
      assert Kept(hits', e);
    }
    if x == m { assert hits'[|hits|] == m; }
    if KeptAs(hits', x) {
      var e: nat :| e <= |hits| && Kept(hits', e) && hits'[e] == x;
      KeptIs(hits', e);
      if e < |hits| {
        KeptSnoc(hits, m, e);
        assert hits[e] == x && x in r && hits'[e] == x;
        if r != [] { assert hits'[l] == hits[l]; }
      }
    }
  }

  lemma {:induction false} MergedIs(hits: seq<Match>)
    requires Rising(hits)
    ensures MergedOk(hits, Merged(hits))
  {
    hide MergedOk; hide Added;
    if hits == [] {
      NoneMerged();
    } else {
      var rest, m := hits[..|hits| - 1], hits[|hits| - 1];
      assert rest + [m] == hits;
      MergedIs(rest);
      if m.size == 0 { NothingNew(rest, Merged(rest), m); } else { NewHit(rest, Merged(rest), m); }
    }
  }

  lemma NoneMerged()
    ensures MergedOk([], [])
  {}

  // m is the longest occurrence of a pattern that ends where it ends.
  ghost predicate Longest(patterns: seq<Text>, t: Text, fold: bool, m: Match) {
    Occurrence(patterns, t, fold, m.index, m.size) &&
    forall k: nat, n: nat :: Occurrence(patterns, t, fold, k, n) && k + n == End(m) ==> n <= m.size
  }

  // Pattern occurrences end where m' ends, after the end of m and nowhere in between.
  ghost predicate NextLongest(patterns: seq<Text>, t: Text, fold: bool, m: Match, m': Match) {
    Longest(patterns, t, fold, m') && End(m) < End(m') &&
    forall k: nat, n: nat :: Occurrence(patterns, t, fold, k, n) && End(m) < k + n ==> End(m') <= k + n
  }

  // What a search reports: the longest occurrence at every end, unless the longest one at the
  // next end starts no later.
  ghost predicate Reported(patterns: seq<Text>, t: Text, fold: bool, m: Match) {
    Longest(patterns, t, fold, m) &&
    forall m': Match :: NextLongest(patterns, t, fold, m, m') ==> m.index < m'.index
  }

  // The hits of a whole text, each at the end of its character.
  ghost predicate AllHits(t: Text, fold: bool, patterns: seq<Text>, ends: seq<nat>, hits: seq<Match>, u: Path) {
    Acceptable(patterns, fold) && Reading(t, fold, u, ends, |t|) &&
    HitsOf(PatternCodes(patterns, fold), u, ends, hits) && Rising(hits)
  }

  lemma HitIsLongest(t: Text, fold: bool, patterns: seq<Text>, ends: seq<nat>, hits: seq<Match>, u: Path, e: nat)
    requires AllHits(t, fold, patterns, ends, hits, u) && e < |hits| && hits[e].size > 0
    ensures Longest(patterns, t, fold, hits[e])
  {
    hide Reading; hide HitsOf; hide Acceptable; hide PatternCodes; hide Occurrence;
    HitOccurs(t, fold, patterns, ends, hits, u, e);
    forall k: nat, n: nat | Occurrence(patterns, t, fold, k, n) && k + n == End(hits[e]) ensures n <= hits[e].size {
      var d := OccurrenceHit(t, fold, patterns, ends, hits, u, k, n);
    }
  }

  lemma LongestIsHit(t: Text, fold: bool, patterns: seq<Text>, ends: seq<nat>, hits: seq<Match>, u: Path,
                     m: Match) returns (e: nat)
    requires AllHits(t, fold, patterns, ends, hits, u) && Longest(patterns, t, fold, m)
    ensures e < |hits| && hits[e] == m && m.size > 0
  {
    hide Reading; hide HitsOf; hide Acceptable; hide PatternCodes;
    e := OccurrenceHit(t, fold, patterns, ends, hits, u, m.index, m.size);
    HitOccurs(t, fold, patterns, ends, hits, u, e);
  }

  lemma NextIsNext(t: Text, fold: bool, patterns: seq<Text>, ends: seq<nat>, hits: seq<Match>, u: Path, e: nat, d: nat)
    requires AllHits(t, fold, patterns, ends, hits, u) && e < |hits| && d < |hits|
    ensures NextHit(hits, e, d) <==> hits[d].size > 0 && NextLongest(patterns, t, fold, hits[e], hits[d])
  {
    hide Reading; hide HitsOf; hide Acceptable; hide PatternCodes; hide Occurrence;
    if hits[d].size > 0 {
      HitIsLongest(t, fold, patterns, ends, hits, u, d);
      if NextHit(hits, e, d) {
        forall k: nat, n: nat | Occurrence(patterns, t, fold, k, n) &&
          End(hits[e]) < k + n ensures End(hits[d]) <= k + n {
          var x := OccurrenceHit(t, fold, patterns, ends, hits, u, k, n);
          OccurrenceSize(patterns, t, fold, k, n);
        }
      }
      if NextLongest(patterns, t, fold, hits[e], hits[d]) {
        forall x: nat | e < x < d ensures hits[x].size == 0 {
          if hits[x].size > 0 { HitIsLongest(t, fold, patterns, ends, hits, u, x); }
        }
      }
    }
  }

  lemma OccurrenceSize(patterns: seq<Text>, t: Text, fold: bool, k: nat, n: nat)
    requires Occurrence(patterns, t, fold, k, n)
    ensures n > 0
  {}

  // The result holds exactly what a search reports, in the order of the ends.
  lemma MergedReports(t: Text, fold: bool, patterns: seq<Text>, ends: seq<nat>, hits: seq<Match>, u: Path)
    requires AllHits(t, fold, patterns, ends, hits, u)
    ensures forall m :: m in Merged(hits) <==> Reported(patterns, t, fold, m)
  {
    hide AllHits; hide Merged; hide Longest; hide NextLongest; hide NextHit;
    RisingHits(t, fold, patterns, ends, hits, u);
    MergedIs(hits);
    forall m ensures m in Merged(hits) <==> Reported(patterns, t, fold, m) {
      if m in Merged(hits) {
        var e: nat :| e < |hits| && Kept(hits, e) && hits[e] == m;
        HitIsLongest(t, fold, patterns, ends, hits, u, e);
        forall m' | NextLongest(patterns, t, fold, m, m') ensures m.index < m'.index {
          NextIsLongest(patterns, t, fold, m, m');
          var d := LongestIsHit(t, fold, patterns, ends, hits, u, m');
          NextIsNext(t, fold, patterns, ends, hits, u, e, d);
        }
      }
      if Reported(patterns, t, fold, m) {
        var e := LongestIsHit(t, fold, patterns, ends, hits, u, m);
        forall d: nat | d < |hits| && NextHit(hits, e, d) ensures hits[e].index < hits[d].index {
          NextIsNext(t, fold, patterns, ends, hits, u, e, d);
        }
        assert Kept(hits, e);
      }
    }
  }

  lemma RisingHits(t: Text, fold: bool, patterns: seq<Text>, ends: seq<nat>, hits: seq<Match>, u: Path)
    requires AllHits(t, fold, patterns, ends, hits, u)
    ensures Rising(hits)
  {}

  lemma NextIsLongest(patterns: seq<Text>, t: Text, fold: bool, m: Match, m': Match)
    requires NextLongest(patterns, t, fold, m, m')
    ensures Longest(patterns, t, fold, m')
  {}

  // ---------- Any bytes ----------

  // The characters read from i on: their codes, and where each ends.
  datatype Chars = Chars(codes: Path, ends: seq<nat>)

  // Bytes that cannot come first, and first bytes of characters that are cut off, are skipped.
  function CharsFrom(t: Text, fold: bool, i: nat): Chars
    decreases |t| - i
  {
    if i >= |t| then Chars([], [])
    else
      var w := CharLength(t[i]);
      if w == 0 || i + w > |t| then CharsFrom(t, fold, i + 1)
      else
        var rest := CharsFrom(t, fold, i + w);
        Chars([Code(t[i..i + w], fold)] + rest.codes, [i + w] + rest.ends)
  }

  // What has been read, and what is left to read.
  ghost predicate ScannedTo(t: Text, fold: bool, u: Path, ends: seq<nat>, i: nat) {
    CharsFrom(t, fold, 0) == Chars(u + CharsFrom(t, fold, i).codes, ends + CharsFrom(t, fold, i).ends)
  }

  lemma ScanStart(t: Text, fold: bool)
    ensures ScannedTo(t, fold, [], [], 0)
  {
    hide CharsFrom;
    assert [] + CharsFrom(t, fold, 0).codes == CharsFrom(t, fold, 0).codes;
    assert [] + CharsFrom(t, fold, 0).ends == CharsFrom(t, fold, 0).ends;
  }

  lemma ScanNext(t: Text, fold: bool, u: Path, ends: seq<nat>, i: nat)
    requires ScannedTo(t, fold, u, ends, i) && i < |t|
    ensures var w := CharLength(t[i]);
            if w == 0 || i + w > |t| then ScannedTo(t, fold, u, ends, i + 1)
            else ScannedTo(t, fold, u + [Code(t[i..i + w], fold)], ends + [i + w], i + w)
  {
    var w := CharLength(t[i]);
    if w != 0 && i + w <= |t| {
      var rest, c := CharsFrom(t, fold, i + w), Code(t[i..i + w], fold);
      assert u + ([c] + rest.codes) == (u + [c]) + rest.codes;
      assert ends + ([i + w] + rest.ends) == (ends + [i + w]) + rest.ends;
    }
  }

  // Whatever the bytes, the result holds the hits at the characters read, one for each at which
  // a pattern ends, but for those that the next hit reaches over.
  ghost predicate HitsIn(P: set<Path>, chars: Chars, found: seq<Match>) {
    exists hits: seq<Match> ::
      HitsOf(P, chars.codes, chars.ends, hits) && forall m :: m in found <==> KeptAs(hits, m)
  }

  lemma ScanEnd(P: set<Path>, t: Text, fold: bool, u: Path, ends: seq<nat>, i: nat, hits: seq<Match>)
    requires ScannedTo(t, fold, u, ends, i) && i >= |t| && HitsOf(P, u, ends, hits) && Rising(hits)
    ensures HitsIn(P, CharsFrom(t, fold, 0), Merged(hits))
  {
    hide HitsOf; hide KeptAs; hide Merged; hide Rising;
    assert u + [] == u && ends + [] == ends;
    MergedIs(hits);
  }

  lemma NoCodesNoBytes(p: Text, fold: bool)
    requires WellFormed(p) && p != []
    ensures Codes(p, fold) != []
  {}

  lemma NoHits(P: set<Path>)
    ensures HitsOf(P, [], [], []) && Size([]) == 0
  {}

  lemma EmptySpan(m: Match)
    ensures m.size == 0 ==> Span(m) == {}
  {}

  lemma SizeGrows(u: Path, c: Text, fold: bool, i: nat)
    requires 1 <= |c| <= 4 && CharLength(c[0]) == |c| && Size(u) <= i
    ensures Size(u + [Code(c, fold)]) <= i + |c|
  {
    CodeNotWider(c, fold);
    SizeSnoc(u, Code(c, fold));
  }
}
