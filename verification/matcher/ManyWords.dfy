// Lists of patterns that are packed right because their forks have large codes: how many slots a
// trie takes, and how many clashes it can have, counted on the patterns.
module ManyWords {
  import opened Utf8
  import opened Automaton
  import opened PatternTrie
  import opened FailLinks
  import opened Allocation
  import opened Placing
  import opened Tour
  import opened Running
  import opened OncePass
  import opened Counting
  import opened CountedPass
  import opened LinkedMachine
  import opened ZeroBase

  // ---------- Clashes ----------

  // The codes beyond the first of each list.
  function Extra(lists: seq<seq<nat>>): nat {
    if lists == [] then 0
    else Extra(lists[..|lists| - 1]) + if lists[|lists| - 1] == [] then 0 else |lists[|lists| - 1]| - 1
  }

  ghost function CodeSet(codes: seq<nat>): set<nat> {
    set c | c in codes
  }

  lemma {:induction false} CodeSetSize(codes: seq<nat>)
    ensures |CodeSet(codes)| <= |codes|
  {
    if codes != [] {
      assert codes == [codes[0]] + codes[1..];
      assert CodeSet(codes) == {codes[0]} + CodeSet(codes[1..]);
      CodeSetSize(codes[1..]);
    }
  }

  // The distances of a set of codes from min.
  ghost function Lowered(a: set<nat>, min: nat): set<nat> {
    set c | c in a && c > min :: c - min
  }

  lemma InLowered(a: set<nat>, min: nat, x: nat)
    ensures x in Lowered(a, min) <==> x > 0 && min + x in a
  {
    if min + x in a && x > 0 {
      var c := min + x;
      assert c in a && c > min && x == c - min;
    }
  }

  lemma {:induction false} LoweredSize(a: set<nat>, min: nat)
    ensures |Lowered(a, min)| <= |a|
    decreases |a|
  {
    if a != {} {
      var c :| c in a;
      LoweredSize(a - {c}, min);
      var extra := if c > min then {c - min} else {};
      forall x | x in Lowered(a, min) ensures x in Lowered(a - {c}, min) + extra {
        InLowered(a, min, x);
        InLowered(a - {c}, min, x);
      }
      SubsetSize(Lowered(a, min), Lowered(a - {c}, min) + extra);
    }
  }

  lemma OffsetsFew(codes: seq<nat>)
    requires codes != []
    ensures |Offsets(codes)| <= |codes| - 1
  {
    hide MinCode;
    var min := MinCode(codes);
    var rest := CodeSet(codes) - {min};
    CodeSetSize(codes);
    LoweredSize(rest, min);
    assert |rest| == |CodeSet(codes)| - 1;
    forall x | x in Offsets(codes) ensures x in Lowered(rest, min) {
      InLowered(rest, min, x);
    }
    SubsetSize(Offsets(codes), Lowered(rest, min));
  }

  // Clashes with one list.
  ghost function ClashesWith(j: nat, a: set<nat>, b: set<nat>): set<(nat, nat, nat)> {
    set x, y | x in a && y in b :: (j, x, y)
  }

  lemma {:induction false} ClashesWithSize(j: nat, a: set<nat>, b: set<nat>)
    ensures |ClashesWith(j, a, b)| <= |a| * |b|
    decreases |a|
  {
    if a != {} {
      var x :| x in a;
      ClashesWithSize(j, a - {x}, b);
      RowSize(j, x, b);
      RowApart(j, a, b, x);
      OneRowMore(|a| - 1, |b|);
    } else {
      assert ClashesWith(j, a, b) == {};
    }
  }

  lemma RowApart(j: nat, a: set<nat>, b: set<nat>, x: nat)
    requires x in a
    ensures |ClashesWith(j, a, b)| <= |ClashesWith(j, a - {x}, b)| + |ClashesWith(j, {x}, b)|
  {
    assert ClashesWith(j, a, b) <= ClashesWith(j, a - {x}, b) + ClashesWith(j, {x}, b);
    SubsetSize(ClashesWith(j, a, b), ClashesWith(j, a - {x}, b) + ClashesWith(j, {x}, b));
  }

  lemma OneRowMore(n: nat, b: nat)
    ensures (n + 1) * b == n * b + b
  {}

  lemma {:induction false} RowSize(j: nat, x: nat, b: set<nat>)
    ensures |ClashesWith(j, {x}, b)| <= |b|
    decreases |b|
  {
    if b != {} {
      var y :| y in b;
      RowSize(j, x, b - {y});
      assert ClashesWith(j, {x}, b) <= ClashesWith(j, {x}, b - {y}) + {(j, x, y)};
      SubsetSize(ClashesWith(j, {x}, b), ClashesWith(j, {x}, b - {y}) + {(j, x, y)});
    } else {
      assert ClashesWith(j, {x}, b) == {};
    }
  }

  lemma ClashesSplit(lists: seq<seq<nat>>, codes: seq<nat>, k: nat)
    requires NoneEmpty(lists) && codes != [] && |lists| == k + 1
    ensures |Clashes(lists, codes)| <=
            |Clashes(lists[..k], codes)| + |ClashesWith(k, Offsets(lists[k]), Offsets(codes))|
  {
    hide Offsets;
    var last := ClashesWith(k, Offsets(lists[k]), Offsets(codes));
    forall q | q in Clashes(lists, codes) ensures q in Clashes(lists[..k], codes) + last {
      if q.0 < k { assert lists[..k][q.0] == lists[q.0]; }
    }
    SubsetSize(Clashes(lists, codes), Clashes(lists[..k], codes) + last);
  }

  lemma {:induction false} ClashesFew(lists: seq<seq<nat>>, codes: seq<nat>)
    requires NoneEmpty(lists) && codes != []
    ensures |Clashes(lists, codes)| <= Extra(lists) * (|codes| - 1)
    decreases |lists|
  {
    if lists == [] {
      assert Clashes(lists, codes) == {};
    } else {
      var k := |lists| - 1;
      ClashesFew(lists[..k], codes);
      ClashesSplit(lists, codes, k);
      ClashesWithSize(k, Offsets(lists[k]), Offsets(codes));
      OffsetsFew(lists[k]);
      OffsetsFew(codes);
      Products(|Offsets(lists[k])|, |Offsets(codes)|, |lists[k]| - 1, |codes| - 1, Extra(lists[..k]));
    }
  }

  lemma Products(a: nat, b: nat, c: nat, d: nat, e: nat)
    requires a <= c && b <= d
    ensures a * b <= c * d && (e + c) * d == e * d + c * d
  {
    assert a * b <= c * b && c * b <= c * d;
  }

  // So few slots are taken or passed over.
  lemma {:induction false} ReachFew(lists: seq<seq<nat>>)
    requires NoneEmpty(lists)
    ensures 2 * Reach(lists) <= 4 + 2 * |lists| + 2 * Extra(lists) + Extra(lists) * Extra(lists)
    ensures Taking(lists) == 1 + |lists| + Extra(lists)
    decreases |lists|
  {
    if lists != [] {
      var k := |lists| - 1;
      ReachFew(lists[..k]);
      ClashesFew(lists[..k], lists[k]);
      OffsetsFew(lists[k]);
      SubsetSize(Near(lists[k]), Offsets(lists[k]));
      Squares(Extra(lists[..k]), |lists[k]| - 1);
    }
  }

  lemma Squares(e: nat, d: nat)
    ensures e * e + 2 * (e * d) <= (e + d) * (e + d)
  {
    assert (e + d) * (e + d) == e * e + 2 * (e * d) + d * d;
  }

  // ---------- Patterns below a node ----------

  // The patterns that begin with w.
  ghost function Below(P: set<Path>, w: Path): set<Path> {
    set x | x in P && w <= x
  }

  // Those among them that go on with one of the codes from number j on.
  ghost function BelowFrom(P: set<Path>, w: Path, codes: seq<nat>, j: nat): set<Path> {
    set x | x in P && w <= x && |w| < |x| && x[|w|] in codes[if j < |codes| then j else |codes|..]
  }

  // The characters of the patterns after the first k of each.
  ghost function Letters(S: set<Path>, k: nat): nat
    decreases |S|
  {
    if S == {} then 0
    else
      var x :| x in S;
      (if |x| > k then |x| - k else 0) + Letters(S - {x}, k)
  }

  lemma {:induction false} LettersPick(S: set<Path>, k: nat, y: Path)
    requires y in S
    ensures Letters(S, k) == (if |y| > k then |y| - k else 0) + Letters(S - {y}, k)
    decreases |S|
  {
    var x :| x in S && Letters(S, k) == (if |x| > k then |x| - k else 0) + Letters(S - {x}, k);
    if x != y {
      LettersPick(S - {x}, k, y);
      LettersPick(S - {y}, k, x);
      assert S - {x} - {y} == S - {y} - {x};
    }
  }

  lemma {:induction false} LettersUnion(S: set<Path>, T: set<Path>, k: nat)
    requires S !! T
    ensures Letters(S + T, k) == Letters(S, k) + Letters(T, k)
    decreases |S|
  {
    if S == {} {
      assert S + T == T;
    } else {
      var y :| y in S;
      LettersPick(S, k, y);
      LettersPick(S + T, k, y);
      assert (S + T) - {y} == (S - {y}) + T;
      LettersUnion(S - {y}, T, k);
    }
  }

  lemma LettersSubset(S: set<Path>, T: set<Path>, k: nat)
    requires S <= T
    ensures Letters(S, k) <= Letters(T, k)
  {
    LettersUnion(S, T - S, k);
    assert S + (T - S) == T;
  }

  // One level deeper, every pattern has a character less.
  lemma {:induction false} LettersDeeper(S: set<Path>, k: nat)
    requires forall x :: x in S ==> |x| > k
    ensures Letters(S, k + 1) + |S| == Letters(S, k)
    decreases |S|
  {
    if S != {} {
      var y :| y in S;
      LettersPick(S, k, y);
      LettersPick(S, k + 1, y);
      LettersDeeper(S - {y}, k);
    }
  }

  // ---------- Children in the pass ----------

  // All children of the nodes.
  ghost function Kids(t: Tree, ns: seq<nat>): nat
    requires AllNodes(t, ns)
  {
    if ns == [] then 0 else |t.nodes[ns[0]].children| + Kids(t, ns[1..])
  }

  lemma {:induction false} KidsOfBoth(t: Tree, a: seq<nat>, b: seq<nat>)
    requires AllNodes(t, a) && AllNodes(t, b)
    ensures AllNodes(t, a + b) && Kids(t, a + b) == Kids(t, a) + Kids(t, b)
    decreases |a|
  {
    if a == [] {
      assert a + b == b;
    } else {
      KidsOfBoth(t, a[1..], b);
      assert (a + b)[1..] == a[1..] + b;
    }
  }

  // The pass through the nodes has no more children than the patterns S have characters after
  // the first k, and no more of them beyond the first of each node than there are patterns.
  ghost predicate Bounded(t: Tree, ns: seq<nat>, S: set<Path>, k: nat, kids: nat, forks: nat) {
    AllNodes(t, ns) && Kids(t, ns) + kids <= Letters(S, k) && Kids(t, ns) + forks <= |ns| + |S|
  }

  lemma {:induction false} BelowBounded(p: Plan, P: set<Path>, n: nat)
    requires LinkedTrie(p, P) && TreeOk(Shape(p)) && n < |p.nodes| == |p.paths| && Below(P, p.paths[n]) != {}
    ensures Bounded(Shape(p), Preorder(Shape(p), n), Below(P, p.paths[n]), |p.paths[n]|, 0, 1)
    decreases |p.nodes| - n, 1, 0
  {
    hide LinkedTrie; hide TreeOk; hide Below; hide BelowFrom; hide SortedCodes; hide NextCodes;
    var t, w := Shape(p), p.paths[n];
    if p.nodes[n].children != map[] {
      var codes := CodesOf(t, n);
      SortedKnown(t, n);
      SortedOrders(p.nodes[n].children.Keys);
      FromBounded(p, P, n, codes, 0);
      BelowSplit(P, w, codes);
      LettersSubset(BelowFrom(P, w, codes, 0), Below(P, w), |w|);
      SubsetSize(BelowFrom(P, w, codes, 0), Below(P, w));
      HeadKids(t, n, PreorderFrom(t, n, codes, 0));
    }
  }

  lemma HeadKids(t: Tree, n: nat, ns: seq<nat>)
    requires n < |t.nodes| && AllNodes(t, ns)
    ensures AllNodes(t, [n] + ns) && Kids(t, [n] + ns) == |t.nodes[n].children| + Kids(t, ns)
  {
    assert ([n] + ns)[1..] == ns;
  }

  lemma BelowSplit(P: set<Path>, w: Path, codes: seq<nat>)
    ensures BelowFrom(P, w, codes, 0) <= Below(P, w)
  {}

  lemma {:induction false} FromBounded(p: Plan, P: set<Path>, n: nat, codes: seq<nat>, j: nat)
    requires LinkedTrie(p, P) && TreeOk(Shape(p)) && n < |p.nodes| == |p.paths| && j <= |codes|
    requires CodesKnown(p.nodes, n, codes) && Distinct(codes)
    ensures Bounded(Shape(p), PreorderFrom(Shape(p), n, codes, j), BelowFrom(P, p.paths[n], codes, j), |p.paths[n]|,
                    |codes| - j, |codes| - j)
    decreases |p.nodes| - n, 0, |codes| - j
  {
    hide LinkedTrie; hide TreeOk; hide Below; hide BelowFrom; hide SortedCodes; hide NextCodes; hide Distinct;
    hide Letters;
    var t, w := Shape(p), p.paths[n];
    if j < |codes| {
      var c := codes[j];
      ChildKnown(t, n, c);
      var m := p.nodes[n].children[c];
      ChildrenFollow(p, P, n);
      SomeBelow(P, w, c);
      BelowBounded(p, P, m);
      FromBounded(p, P, n, codes, j + 1);
      BelowParts(P, w, codes, j);
      LettersDeeper(Below(P, w + [c]), |w|);
      LettersUnion(Below(P, w + [c]), BelowFrom(P, w, codes, j + 1), |w|);
      KidsOfBoth(t, Preorder(t, m), PreorderFrom(t, n, codes, j + 1));
    }
  }

  lemma SomeBelow(P: set<Path>, w: Path, c: nat)
    requires c in NextCodes(P, w)
    ensures Below(P, w + [c]) != {}
  {
    var x :| x in P && |w| < |x| && w <= x && x[|w|] == c;
    assert w + [c] <= x;
    assert x in Below(P, w + [c]);
  }

  lemma BelowParts(P: set<Path>, w: Path, codes: seq<nat>, j: nat)
    requires j < |codes| && Distinct(codes)
    ensures var a, b := Below(P, w + [codes[j]]), BelowFrom(P, w, codes, j + 1);
            BelowFrom(P, w, codes, j) == a + b && a !! b && |a + b| == |a| + |b| && forall x :: x in a ==> |x| > |w|
  {
    var a, b := Below(P, w + [codes[j]]), BelowFrom(P, w, codes, j + 1);
    assert codes[j..] == [codes[j]] + codes[j + 1..];
    forall x ensures x in BelowFrom(P, w, codes, j) <==> x in a + b {
      if |w| < |x| && w <= x { assert w + [codes[j]] <= x <==> x[|w|] == codes[j]; }
    }
  }

  // ---------- Few patterns with large codes ----------

  lemma {:induction false} KidsAtLeast(t: Tree, ns: seq<nat>)
    requires AllNodes(t, ns) && forall i :: 0 <= i < |ns| ==> t.nodes[ns[i]].children != map[]
    ensures Kids(t, ns) >= |ns|
  {
    if ns != [] {
      assert |t.nodes[ns[0]].children| > 0;
      KidsAtLeast(t, ns[1..]);
    }
  }

  lemma ExtraSnoc(lists: seq<seq<nat>>, codes: seq<nat>)
    requires codes != []
    ensures Extra(lists + [codes]) == Extra(lists) + |codes| - 1
  {
    assert (lists + [codes])[..|lists|] == lists;
  }

  lemma KidsSnoc(t: Tree, ns: seq<nat>, i: nat)
    requires AllNodes(t, ns) && 0 < i <= |ns|
    ensures AllNodes(t, ns[..i - 1]) && AllNodes(t, ns[..i])
    ensures Kids(t, ns[..i]) == Kids(t, ns[..i - 1]) + |t.nodes[ns[i - 1]].children|
  {
    assert ns[..i] == ns[..i - 1] + [ns[i - 1]];
    KidsOfBoth(t, ns[..i - 1], [ns[i - 1]]);
  }

  lemma CodeCount(t: Tree, n: nat)
    requires n < |t.nodes|
    ensures |CodesOf(t, n)| == |t.nodes[n].children|
  {
    hide SortedCodes;
    SortedOrders(t.nodes[n].children.Keys);
  }

  lemma {:induction false} ExtraOfLists(t: Tree, ns: seq<nat>, i: nat)
    requires AllNodes(t, ns) && i <= |ns|
    requires forall j :: 0 <= j < |ns| ==> t.nodes[ns[j]].children != map[]
    ensures AllNodes(t, ns[..i]) && Extra(Lists(t, ns, i)) + i == Kids(t, ns[..i])
    decreases i
  {
    if i > 0 {
      ExtraOfLists(t, ns, i - 1);
      hide CodesOf; hide Extra; hide Kids; hide Lists;
      ListsNext(t, ns, i - 1);
      CodeCount(t, ns[i - 1]);
      KidsSnoc(t, ns, i);
      ExtraSnoc(Lists(t, ns, i - 1), CodesOf(t, ns[i - 1]));
    }
  }

  // The parts of the pass up to a node, and all of it.
  lemma KidsUpTo(t: Tree, ns: seq<nat>, i: nat)
    requires Route(t, ns) && i <= |ns|
    ensures AllNodes(t, ns[..i]) && Kids(t, ns[..i]) + |ns| - i <= Kids(t, ns)
  {
    hide TreeOk;
    assert ns[..i] + ns[i..] == ns;
    KidsOfBoth(t, ns[..i], ns[i..]);
    KidsAtLeast(t, ns[i..]);
  }

  // Twice the highest entry that counting characters and patterns allows.
  ghost function TwiceHighest(P: set<Path>): nat {
    var forks := if |P| == 0 then 0 else |P| - 1;
    4 + 2 * Letters(P, 0) + forks * forks
  }

  lemma HighestSum(reach: nat, clashes: nat, i: nat, e: nat, d: nat, letters: nat, forks: nat)
    requires 2 * reach <= 4 + 2 * i + 2 * e + e * e && clashes <= e * d && i + e <= letters && e + d <= forks
    ensures 2 * (reach + clashes) <= 4 + 2 * letters + forks * forks
    ensures 2 * (1 + i + e) <= 4 + 2 * letters + forks * forks
  {
    Squares(e, d);
    SquareUp(e + d, forks);
  }

  lemma ListsLength(t: Tree, ns: seq<nat>, i: nat)
    requires AllNodes(t, ns) && i <= |ns|
    ensures |Lists(t, ns, i)| == i
  {}

  lemma RouteKids(t: Tree, ns: seq<nat>)
    requires Route(t, ns)
    ensures AllNodes(t, ns) && forall j :: 0 <= j < |ns| ==> t.nodes[ns[j]].children != map[]
  {}

  // The codes before a node and of it are few.
  lemma ExtraFew(t: Tree, ns: seq<nat>, P: set<Path>, i: nat)
    requires Route(t, ns) && i < |ns| && Bounded(t, ns, P, 0, 0, 1) && CodesOf(t, ns[i]) != []
    ensures var e := Extra(Lists(t, ns, i));
            i + e <= Letters(P, 0) && |P| > 0 && e + |CodesOf(t, ns[i])| - 1 <= |P| - 1
  {
    hide CodesOf; hide Lists; hide Extra; hide Kids; hide Letters;
    RouteKids(t, ns);
    KidsUpTo(t, ns, i);
    KidsUpTo(t, ns, i + 1);
    hide Route;
    ExtraOfLists(t, ns, i);
    ExtraOfLists(t, ns, i + 1);
    ListsNext(t, ns, i);
    ExtraSnoc(Lists(t, ns, i), CodesOf(t, ns[i]));
  }

  // No entry is higher than that.
  lemma HighestFew(p: Plan, P: set<Path>, i: nat)
    requires LinkedTrie(p, P) && P != {} && TreeOk(Shape(p)) && |p.nodes| > 0 && Route(Shape(p), Preorder(Shape(p), 0))
    requires i < |Preorder(Shape(p), 0)|
    ensures var t, ns := Shape(p), Preorder(Shape(p), 0);
            AllNodes(t, ns) && NoneEmpty(Lists(t, ns, i)) && CodesOf(t, ns[i]) != [] &&
            2 * Highest(Lists(t, ns, i), CodesOf(t, ns[i])) <= TwiceHighest(P) &&
            2 * Taking(Lists(t, ns, i)) <= TwiceHighest(P)
  {
    hide LinkedTrie; hide TreeOk; hide Preorder; hide CodesOf; hide Lists; hide Clashes; hide Reach; hide Letters;
    hide Route; hide Extra; hide Taking;
    var t, ns := Shape(p), Preorder(Shape(p), 0);
    RouteKids(t, ns);
    AllBounded(p, P);
    RouteCodes(t, ns, i);
    ListsFull(t, ns, i);
    ListsLength(t, ns, i);
    var lists, codes := Lists(t, ns, i), CodesOf(t, ns[i]);
    ExtraFew(t, ns, P, i);
    hide Bounded;
    ReachFew(lists);
    ClashesFew(lists, codes);
    HighestSum(Reach(lists), |Clashes(lists, codes)|, i, Extra(lists), |codes| - 1, Letters(P, 0), |P| - 1);
  }

  lemma SquareUp(a: nat, b: nat)
    requires a <= b
    ensures a * a <= b * b
  {
    assert a * a <= a * b && a * b <= b * b;
  }

  lemma AllBounded(p: Plan, P: set<Path>)
    requires LinkedTrie(p, P) && P != {} && TreeOk(Shape(p)) && |p.nodes| > 0
    ensures Bounded(Shape(p), Preorder(Shape(p), 0), P, 0, 0, 1)
  {
    hide LinkedTrie; hide TreeOk; hide Preorder;
    TrieParts(p, P);
    assert Below(P, []) == P;
    BelowBounded(p, P, 0);
  }

  // Wherever two patterns part, the codes are larger than any entry.
  ghost predicate ForksAbove(P: set<Path>) {
    forall x, y, k :: x in P && y in P && PartAt(x, y, k) ==> 2 * x[k] > TwiceHighest(P)
  }

  // A fork with large codes is spared.
  lemma ForkSpared(p: Plan, P: set<Path>, i: nat)
    requires LinkedTrie(p, P) && P != {} && TreeOk(Shape(p)) && |p.nodes| > 0 && Route(Shape(p), Preorder(Shape(p), 0))
    requires TwiceHighest(P) < 2 * LIMIT && ForksAbove(P) && AllNodes(Shape(p), Preorder(Shape(p), 0))
    requires i < |Preorder(Shape(p), 0)| && Forks(Shape(p), Preorder(Shape(p), 0), i)
    ensures Spared(Shape(p), Preorder(Shape(p), 0), i)
  {
    hide LinkedTrie; hide TreeOk; hide Preorder; hide CodesOf; hide Lists; hide TwiceHighest; hide Highest; hide Taking;
    hide Route; hide MinCode; hide ForksAbove;
    HighestFew(p, P, i);
    ForkAbove(p, P, Preorder(Shape(p), 0)[i]);
  }

  // A list of patterns that is not too long, and whose patterns part only at large codes, Hangul
  // syllables say, is packed right.
  lemma FewWordsOnce(p: Plan, P: set<Path>, last: nat)
    requires LinkedTrie(p, P) && ChainEnd(last) && TwiceHighest(P) < 1020 && ForksAbove(P)
    ensures TreeOk(Shape(p)) && Once(Shape(p), last)
  {
    hide LinkedTrie; hide TreeOk; hide Preorder; hide Once; hide Spared; hide Route; hide TwiceHighest; hide ForksAbove;
    hide Linked; hide Forks; hide AllNodes;
    TrieParts(p, P);
    PreorderRoute(Shape(p));
    if P == {} {
      NestedOnce(p, P, last);
    } else {
      RouteKids(Shape(p), Preorder(Shape(p), 0));
      forall i | 0 <= i < |Preorder(Shape(p), 0)| && Forks(Shape(p), Preorder(Shape(p), 0), i)
        ensures Spared(Shape(p), Preorder(Shape(p), 0), i)
      {
        ForkSpared(p, P, i);
      }
      SparedOnce(Shape(p), last);
    }
  }

  lemma ForkAbove(p: Plan, P: set<Path>, n: nat)
    requires LinkedTrie(p, P) && n < |p.nodes| && |p.nodes[n].children| >= 2 && ForksAbove(P)
    ensures CodesOf(Shape(p), n) != [] && 2 * MinCode(CodesOf(Shape(p), n)) > TwiceHighest(P)
  {
    hide LinkedTrie; hide TreeOk; hide CodesOf; hide MinCode; hide TwiceHighest; hide NextCodes; hide Linked;
    hide LeastIs;
    hide PathSet; hide PrefixOfOne; hide Diverge;
    TrieParts(p, P);
    var w := p.paths[n];
    LeastOfCodes(Shape(p), n, 0);
    var c := MinCode(CodesOf(Shape(p), n));
    LeastOfCodes(Shape(p), n, c);
    LeastThere(p.nodes[n].children.Keys, c);
    ChildrenFollow(p, P, n);
    var d := OtherOf(p.nodes[n].children.Keys, c);
    var x, y := CodesDiverge(P, w, c, d);
    assert x[..|w|] == w && y[..|w|] == w;
    assert PartAt(x, y, |w|);
  }

  lemma LeastThere(s: set<nat>, k: nat)
    requires LeastIs(s, k)
    ensures k in s
  {}

  lemma OtherOf(s: set<nat>, c: nat) returns (d: nat)
    requires |s| >= 2
    ensures d in s && d != c
  {
    var a, b := TwoOf(s);
    d := if a == c then b else a;
  }
}
