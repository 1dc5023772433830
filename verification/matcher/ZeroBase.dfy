// The source takes a base of 0 for a node whose children are not placed yet. For which patterns
// that goes wrong.
module ZeroBase {
  import opened Utf8
  import opened Automaton
  import opened Allocation
  import opened PatternTrie
  import opened FailLinks
  import opened Placing
  import opened Tour
  import opened Running
  import opened OncePass
  import opened Counting
  import opened CountedPass
  import opened LinkedMachine

  // ---------- Patterns and nodes ----------

  lemma TrieParts(p: Plan, P: set<Path>)
    requires LinkedTrie(p, P)
    ensures Linked(p.nodes, p.paths, p.parents) && TreeOk(Shape(p)) && P <= PathSet(p.paths)
    ensures |p.nodes| == |p.paths| > 0 && p.paths[0] == []
    ensures forall n :: 0 < n < |p.nodes| ==> PrefixOfOne(p.paths[n], P)
  {
    RootPath(p.nodes, p.paths, p.parents);
  }

  // The prefixes of a path in the trie are in it.
  lemma OneShorter(p: Plan, x: Path, k: nat)
    requires Linked(p.nodes, p.paths, p.parents) && k < |x| && x[..k + 1] in PathSet(p.paths)
    ensures x[..k] in PathSet(p.paths)
  {
    PathsArePrefixClosed(p.nodes, p.paths, p.parents);
    hide Linked; hide PathSet;
    var y := x[..k + 1];
    assert y != [] && y[..|y| - 1] == x[..k];
  }

  lemma {:induction false} PrefixIsPath(p: Plan, x: Path, k: nat)
    requires Linked(p.nodes, p.paths, p.parents) && x in PathSet(p.paths) && k <= |x|
    ensures x[..k] in PathSet(p.paths)
    decreases |x| - k
  {
    hide Linked; hide PathSet;
    if k == |x| {
      assert x[..k] == x;
    } else {
      PrefixIsPath(p, x, k + 1);
      OneShorter(p, x, k);
    }
  }

  // The codes that follow w in patterns.
  ghost function NextCodes(P: set<Path>, w: Path): set<nat> {
    set x | x in P && |w| < |x| && w <= x :: x[|w|]
  }

  lemma ChildFollows(p: Plan, P: set<Path>, n: nat, c: nat)
    requires LinkedTrie(p, P) && n < |p.nodes| == |p.paths| && c in p.nodes[n].children
    ensures c in NextCodes(P, p.paths[n])
  {
    TrieParts(p, P);
    hide LinkedTrie; hide Linked; hide PathSet; hide TreeOk;
    ChildPath(p.nodes, p.paths, p.parents, n, c);
    var m, w := p.nodes[n].children[c], p.paths[n];
    assert PrefixOfOne(p.paths[m], P);
    var x :| x in P && p.paths[m] <= x;
    assert x[|w|] == (w + [c])[|w|] && w <= x;
  }

  lemma FollowsChild(p: Plan, P: set<Path>, n: nat, c: nat)
    requires LinkedTrie(p, P) && n < |p.nodes| == |p.paths| && c in NextCodes(P, p.paths[n])
    ensures c in p.nodes[n].children
  {
    hide LinkedTrie; hide Linked; hide PathSet; hide TreeOk; hide PrefixOfOne;
    TrieParts(p, P);
    var w := p.paths[n];
    var x :| x in P && |w| < |x| && w <= x && x[|w|] == c;
    PrefixIsPath(p, x, |w| + 1);
    assert x[..|w| + 1] == w + [c];
    ChildIffPath(p.nodes, p.paths, p.parents, n, c);
  }

  // They are those of the children of the node with path w.
  lemma ChildrenFollow(p: Plan, P: set<Path>, n: nat)
    requires LinkedTrie(p, P) && n < |p.nodes| == |p.paths|
    ensures p.nodes[n].children.Keys == NextCodes(P, p.paths[n])
  {
    hide LinkedTrie; hide NextCodes;
    forall c: nat ensures c in p.nodes[n].children.Keys <==> c in NextCodes(P, p.paths[n]) {
      if c in p.nodes[n].children { ChildFollows(p, P, n, c); }
      if c in NextCodes(P, p.paths[n]) { FollowsChild(p, P, n, c); }
    }
  }

  // ---------- Nested patterns ----------

  // The two patterns disagree somewhere: neither begins with the other.
  ghost predicate Diverge(x: Path, y: Path) {
    !(x <= y) && !(y <= x)
  }

  // Two codes after w come from two patterns that part there.
  lemma CodesDiverge(P: set<Path>, w: Path, c: nat, d: nat) returns (x: Path, y: Path)
    requires c in NextCodes(P, w) && d in NextCodes(P, w) && c != d
    ensures x in P && y in P && Diverge(x, y) && |w| < |x| && |w| < |y| && w <= x && w <= y && x[|w|] == c
    ensures y[|w|] == d
  {
    x :| x in P && |w| < |x| && w <= x && x[|w|] == c;
    y :| y in P && |w| < |y| && w <= y && y[|w|] == d;
  }

  lemma TwoOf(s: set<nat>) returns (c: nat, d: nat)
    requires |s| >= 2
    ensures c in s && d in s && c != d
  {
    c :| c in s;
    assert |s - {c}| >= 1;
    d :| d in s - {c};
  }

  lemma AtLeastTwo(s: set<nat>, c: nat, d: nat)
    requires c in s && d in s && c != d
    ensures |s| >= 2
  {
    SubsetSize({c, d}, s);
  }

  // Patterns that begin with one another, a single pattern say, are always packed right.
  lemma NestedOnce(p: Plan, P: set<Path>, last: nat)
    requires LinkedTrie(p, P) && ChainEnd(last) && forall x, y :: x in P && y in P ==> !Diverge(x, y)
    ensures TreeOk(Shape(p)) && Once(Shape(p), last)
  {
    TrieParts(p, P);
    hide LinkedTrie; hide Linked; hide TreeOk; hide Once; hide NextCodes;
    forall n | 0 <= n < |p.nodes| ensures |p.nodes[n].children| < 2 {
      ChildrenFollow(p, P, n);
      if |p.nodes[n].children.Keys| >= 2 {
        var c, d := TwoOf(p.nodes[n].children.Keys);
        var x, y := CodesDiverge(P, p.paths[n], c, d);
      }
    }
    NoForkOnce(Shape(p), last);
  }

  // ---------- The first fork ----------

  // All patterns go along w, or end on it, and after w they part.
  ghost predicate FirstFork(P: set<Path>, w: Path) {
    (forall x :: x in P ==> x <= w || w <= x) && |NextCodes(P, w)| >= 2
  }

  // k is the least of the codes.
  ghost predicate LeastIs(s: set<nat>, k: nat) {
    k in s && forall c :: c in s ==> k <= c
  }

  // The way to the fork is a path of the trie with single children.
  lemma OnTheWay(p: Plan, P: set<Path>, w: Path, n: nat)
    requires LinkedTrie(p, P) && FirstFork(P, w) && n < |p.nodes| == |p.paths|
    requires p.paths[n] <= w && p.paths[n] != w
    ensures |p.paths[n]| < |w| && p.nodes[n].children.Keys == {w[|p.paths[n]|]}
  {
    ChildrenFollow(p, P, n);
    hide LinkedTrie;
    var k := |p.paths[n]|;
    var c, d := TwoOf(NextCodes(P, w));
    var x, y := CodesDiverge(P, w, c, d);
    assert x[k] == w[k] && p.paths[n] <= x;
    forall e | e in NextCodes(P, p.paths[n]) ensures e == w[k] {
      var z :| z in P && k < |z| && p.paths[n] <= z && z[k] == e;
    }
    assert w[k] in NextCodes(P, p.paths[n]);
  }

  // One child: the pass goes on to it.
  lemma PreorderSingle(t: Tree, n: nat, c: nat)
    requires TreeOk(t) && n < |t.nodes| && t.nodes[n].children.Keys == {c}
    ensures t.nodes[n].children[c] < |t.nodes| && |t.nodes[n].children| == 1
    ensures Preorder(t, n) == [n] + Preorder(t, t.nodes[n].children[c])
  {
    hide TreeOk;
    assert c in t.nodes[n].children;
    ChildKnown(t, n, c);
    SingleSorted(c);
    SortedKnown(t, n);
    hide SortedCodes;
    var codes := CodesOf(t, n);
    assert PreorderFrom(t, n, codes, 1) == [];
    assert PreorderFrom(t, n, codes, 0) == Preorder(t, t.nodes[n].children[c]) + [];
  }

  lemma SingleSorted(c: nat)
    ensures SortedCodes({c}) == [c]
  {
    SortedIs({c}, [c]);
  }

  // The nodes have one child each.
  ghost predicate Singles(t: Tree, way: seq<nat>) {
    forall i :: 0 <= i < |way| ==> way[i] < |t.nodes| && |t.nodes[way[i]].children| == 1
  }

  lemma SinglesSnoc(t: Tree, way: seq<nat>, m: nat)
    requires Singles(t, way) && m < |t.nodes| && |t.nodes[m].children| == 1
    ensures Singles(t, way + [m])
  {}

  lemma Regroup(a: seq<nat>, m: nat, b: seq<nat>)
    ensures a + ([m] + b) == a + [m] + b
  {}

  // From node m on the way to the fork the pass goes on to its child.
  lemma WayStep(p: Plan, P: set<Path>, w: Path, m: nat) returns (n: nat)
    requires LinkedTrie(p, P) && TreeOk(Shape(p)) && FirstFork(P, w) && m < |p.nodes| == |p.paths|
    requires p.paths[m] <= w && p.paths[m] != w
    ensures |p.paths[m]| < |w| && n < |p.nodes| && p.paths[n] == w[..|p.paths[m]| + 1] && |p.nodes[m].children| == 1
    ensures Preorder(Shape(p), m) == [m] + Preorder(Shape(p), n)
  {
    hide LinkedTrie; hide Linked; hide TreeOk; hide FirstFork; hide Preorder; hide PathSet; hide PrefixOfOne;
    TrieParts(p, P);
    OnTheWay(p, P, w, m);
    var k := |p.paths[m]|;
    PreorderSingle(Shape(p), m, w[k]);
    assert w[k] in p.nodes[m].children.Keys;
    n := p.nodes[m].children[w[k]];
    ChildPath(p.nodes, p.paths, p.parents, m, w[k]);
    assert w[..k + 1] == w[..k] + [w[k]];
  }

  // The pass makes its way to the fork before anything else.
  lemma {:induction false} WayTo(p: Plan, P: set<Path>, w: Path, j: nat) returns (way: seq<nat>, n: nat)
    requires LinkedTrie(p, P) && FirstFork(P, w) && j <= |w|
    ensures |p.nodes| == |p.paths| > 0 && TreeOk(Shape(p)) && n < |p.nodes| && p.paths[n] == w[..j] && |way| == j
    ensures Preorder(Shape(p), 0) == way + Preorder(Shape(p), n) && Singles(Shape(p), way)
  {
    hide LinkedTrie; hide Linked; hide TreeOk; hide FirstFork; hide Preorder; hide Singles; hide PathSet;
    hide PrefixOfOne;
    TrieParts(p, P);
    if j == 0 {
      way, n := [], 0;
      NoSingles(Shape(p));
    } else {
      var way0, m := WayTo(p, P, w, j - 1);
      n := WayStep(p, P, w, m);
      way := way0 + [m];
      SinglesSnoc(Shape(p), way0, m);
      Regroup(way0, m, Preorder(Shape(p), n));
    }
  }

  lemma NoSingles(t: Tree)
    ensures Singles(t, [])
  {}

  // Descendants lie deeper.
  lemma {:induction false} PreorderDeeper(t: Tree, n: nat, i: nat)
    requires TreeOk(t) && n < |t.nodes| && i < |Preorder(t, n)|
    ensures |t.paths| == |t.nodes| && Preorder(t, n)[i] < |t.nodes|
    ensures |t.paths[Preorder(t, n)[i]]| >= |t.paths[n]| && (i > 0 ==> |t.paths[Preorder(t, n)[i]]| > |t.paths[n]|)
    decreases |t.nodes| - n, 1, 0
  {
    RootThere(t);
    hide TreeOk; hide SortedCodes;
    if i > 0 {
      SortedKnown(t, n);
      FromDeeper(t, n, CodesOf(t, n), 0, i - 1);
    }
  }

  lemma {:induction false} FromDeeper(t: Tree, n: nat, codes: seq<nat>, j: nat, i: nat)
    requires TreeOk(t) && n < |t.nodes| && CodesKnown(t.nodes, n, codes) && i < |PreorderFrom(t, n, codes, j)|
    ensures |t.paths| == |t.nodes| && PreorderFrom(t, n, codes, j)[i] < |t.nodes|
    ensures |t.paths[PreorderFrom(t, n, codes, j)[i]]| > |t.paths[n]|
    decreases |t.nodes| - n, 0, |codes| - j
  {
    RootThere(t);
    hide TreeOk;
    ChildKnown(t, n, codes[j]);
    var m := t.nodes[n].children[codes[j]];
    if i < |Preorder(t, m)| {
      PreorderDeeper(t, m, i);
    } else {
      FromDeeper(t, n, codes, j + 1, i - |Preorder(t, m)|);
    }
  }

  lemma ForkParts(P: set<Path>, w: Path)
    requires FirstFork(P, w)
    ensures |NextCodes(P, w)| >= 2
  {}

  // The fork is the node of the pass whose number is the length of the way.
  lemma ForkReached(p: Plan, P: set<Path>, w: Path)
    requires LinkedTrie(p, P) && FirstFork(P, w)
    ensures |p.nodes| == |p.paths| > 0 && TreeOk(Shape(p))
    ensures var t, ns := Shape(p), Preorder(Shape(p), 0);
            AllNodes(t, ns) && |w| < |ns| && p.paths[ns[|w|]] == w && Straight(t, ns, |w|) && Forks(t, ns, |w|) &&
            forall j :: |w| < j < |ns| ==> p.paths[ns[j]] != w
  {
    TrieParts(p, P);
    PreorderNodes(Shape(p), 0);
    ForkParts(P, w);
    hide LinkedTrie; hide Linked; hide TreeOk; hide FirstFork; hide NextCodes; hide Preorder; hide PathSet;
    hide PrefixOfOne;
    var way, n := WayTo(p, P, w, |w|);
    assert w[..|w|] == w;
    ChildrenFollow(p, P, n);
    ForkFirst(Shape(p), n);
    AfterWay(Shape(p), way, n);
  }

  lemma AfterWay(t: Tree, way: seq<nat>, n: nat)
    requires TreeOk(t) && n < |t.nodes| && Singles(t, way) && |Preorder(t, n)| > 0 && Preorder(t, n)[0] == n
    requires |t.nodes| > 0 && Preorder(t, 0) == way + Preorder(t, n) && AllNodes(t, Preorder(t, 0))
    ensures var ns := Preorder(t, 0);
            |way| < |ns| && ns[|way|] == n && Straight(t, ns, |way|) && |t.paths| == |t.nodes| &&
            forall j :: |way| < j < |ns| ==> t.paths[ns[j]] != t.paths[n]
  {
    RootThere(t);
    hide TreeOk; hide Preorder;
    var ns := Preorder(t, 0);
    forall j | |way| < j < |ns| ensures t.paths[ns[j]] != t.paths[n] {
      PreorderDeeper(t, n, j - |way|);
      assert ns[j] == Preorder(t, n)[j - |way|];
    }
  }

  lemma ForkFirst(t: Tree, n: nat)
    requires TreeOk(t) && n < |t.nodes| && t.nodes[n].children != map[]
    ensures |Preorder(t, n)| > 0 && Preorder(t, n)[0] == n
  {
    hide TreeOk;
    SortedKnown(t, n);
  }

  lemma {:induction false} LeastOfCodes(t: Tree, n: nat, k: nat)
    requires n < |t.nodes| && t.nodes[n].children != map[]
    ensures CodesOf(t, n) != [] && (MinCode(CodesOf(t, n)) == k <==> LeastIs(t.nodes[n].children.Keys, k))
  {
    hide SortedCodes; hide MinCode;
    var keys, codes := t.nodes[n].children.Keys, CodesOf(t, n);
    SortedOrders(keys);
    var c :| c in keys;
    assert c in codes;
    var min := MinCode(codes);
    assert min in codes;
    forall d | d in keys ensures min <= d { assert d in codes; }
  }

  // If the least code after the first fork is two more than the length of the way there, the
  // fork is placed twice.
  lemma FirstForkFails(p: Plan, P: set<Path>, last: nat, w: Path)
    requires LinkedTrie(p, P) && ChainEnd(last) && FirstFork(P, w) && |w| + 2 < 510
    requires LeastIs(NextCodes(P, w), |w| + 2)
    ensures TreeOk(Shape(p)) && !Once(Shape(p), last)
  {
    ForkReached(p, P, w);
    hide LinkedTrie; hide TreeOk; hide FirstFork; hide NextCodes; hide Preorder; hide Once; hide LeastIs; hide CodesOf;
    var t, ns := Shape(p), Preorder(Shape(p), 0);
    ChildrenFollow(p, P, ns[|w|]);
    LeastOfCodes(t, ns[|w|], |w| + 2);
    FirstForkTwice(t, last, |w|);
  }

  // No patterns part anywhere but after w.
  ghost predicate OnlyFork(P: set<Path>, w: Path) {
    FirstFork(P, w) &&
    forall x, y :: x in P && y in P && Diverge(x, y) ==> |w| < |x| && |w| < |y| && x[|w|] != y[|w|]
  }

  // With just one fork, the patterns are packed right exactly if this is not so.
  lemma OnlyForkDecides(p: Plan, P: set<Path>, last: nat, w: Path)
    requires LinkedTrie(p, P) && ChainEnd(last) && OnlyFork(P, w) && |w| + 2 < 510
    ensures TreeOk(Shape(p)) && (Once(Shape(p), last) <==> !LeastIs(NextCodes(P, w), |w| + 2))
  {
    ForkReached(p, P, w);
    hide LinkedTrie; hide TreeOk; hide FirstFork; hide NextCodes; hide Preorder; hide Once; hide LeastIs; hide CodesOf;
    var t, ns := Shape(p), Preorder(Shape(p), 0);
    ChildrenFollow(p, P, ns[|w|]);
    LeastOfCodes(t, ns[|w|], |w| + 2);
    forall j | |w| < j < |ns| ensures !Forks(t, ns, j) {
      if Forks(t, ns, j) { ForkIsThere(p, P, w, ns[j]); }
    }
    OnlyForkOnce(t, last, |w|);
  }

  lemma ForkIsThere(p: Plan, P: set<Path>, w: Path, n: nat)
    requires LinkedTrie(p, P) && OnlyFork(P, w) && n < |p.nodes| == |p.paths| && |p.nodes[n].children| >= 2
    ensures p.paths[n] == w
  {
    ChildrenFollow(p, P, n);
    hide LinkedTrie; hide NextCodes;
    var c, d := TwoOf(p.nodes[n].children.Keys);
    var x, y := CodesDiverge(P, p.paths[n], c, d);
    assert w <= x && w <= y;
  }

  // The two patterns part after k characters.
  ghost predicate PartAt(x: Path, y: Path, k: nat) {
    k < |x| && k < |y| && x[..k] == y[..k] && x[k] != y[k]
  }

  lemma TwoPatternsFork(x: Path, y: Path, k: nat)
    requires PartAt(x, y, k)
    ensures OnlyFork({x, y}, x[..k]) && NextCodes({x, y}, x[..k]) == {x[k], y[k]}
  {
    var P, w := {x, y}, x[..k];
    assert w <= x && w <= y && y[..k] == w;
    AtLeastTwo(NextCodes(P, w), x[k], y[k]);
  }

  // Two patterns are packed right exactly if the lesser of the codes at which they part is not
  // two more than the number of characters before.
  lemma TwoPatternsDecide(p: Plan, x: Path, y: Path, k: nat, last: nat)
    requires LinkedTrie(p, {x, y}) && ChainEnd(last) && PartAt(x, y, k) && k + 2 < 510
    ensures TreeOk(Shape(p)) && (Once(Shape(p), last) <==> (if x[k] < y[k] then x[k] else y[k]) != k + 2)
  {
    hide LinkedTrie; hide TreeOk; hide Once; hide OnlyFork; hide NextCodes;
    TwoPatternsFork(x, y, k);
    OnlyForkDecides(p, {x, y}, last, x[..k]);
  }

  ghost predicate AllSingle(P: set<Path>) {
    forall x :: x in P ==> |x| == 1
  }

  lemma FirstCode(P: set<Path>, c: nat)
    requires AllSingle(P)
    ensures c in NextCodes(P, []) <==> [c] in P
  {
    if c in NextCodes(P, []) {
      var z :| z in P && z[0] == c;
      assert z == [c];
    }
    if [c] in P { assert [c][0] == c; }
  }

  lemma SinglesFork(P: set<Path>)
    requires |P| >= 2 && AllSingle(P)
    ensures OnlyFork(P, [])
  {
    var x :| x in P;
    assert |P - {x}| >= 1;
    var y :| y in P - {x};
    assert x == [x[0]] && y == [y[0]];
    FirstCode(P, x[0]);
    FirstCode(P, y[0]);
    AtLeastTwo(NextCodes(P, []), x[0], y[0]);
  }

  lemma CodesPositive(p: Plan, P: set<Path>)
    requires LinkedTrie(p, P)
    ensures 0 !in NextCodes(P, [])
  {
    TrieParts(p, P);
    ChildrenFollow(p, P, 0);
    hide LinkedTrie; hide TreeOk; hide Linked; hide NextCodes; hide PathSet; hide PrefixOfOne;
    if 0 in p.nodes[0].children { ChildPath(p.nodes, p.paths, p.parents, 0, 0); }
  }

  lemma LeastTwo(s: set<nat>)
    requires 0 !in s
    ensures LeastIs(s, 2) <==> 2 in s && 1 !in s
  {}

  // Single characters are packed right exactly if their least code is not 2.
  lemma SingleCharactersDecide(p: Plan, P: set<Path>, last: nat)
    requires LinkedTrie(p, P) && ChainEnd(last) && |P| >= 2 && AllSingle(P)
    ensures TreeOk(Shape(p)) && (Once(Shape(p), last) <==> !([2] in P && [1] !in P))
  {
    hide LinkedTrie; hide TreeOk; hide Once; hide OnlyFork; hide NextCodes; hide LeastIs; hide AllSingle;
    SinglesFork(P);
    CodesPositive(p, P);
    FirstCode(P, 1);
    FirstCode(P, 2);
    OnlyForkDecides(p, P, last, []);
    LeastTwo(NextCodes(P, []));
  }

  // ---------- High codes ----------

  // Hangul syllables have codes above every entry that is served in order, so a list of them is
  // packed right as long as there is room for its forks.
  lemma HighCodesOnce(p: Plan, P: set<Path>, last: nat)
    requires LinkedTrie(p, P) && ChainEnd(last) && forall x, k :: x in P && 0 <= k < |x| ==> x[k] >= 510
    requires TreeOk(Shape(p)) && |p.nodes| > 0 && AllNodes(Shape(p), Preorder(Shape(p), 0))
    requires var t, ns := Shape(p), Preorder(Shape(p), 0);
             forall i :: 0 <= i < |ns| && Forks(t, ns, i) ==> RoomAt(t, ns, i)
    ensures Once(Shape(p), last)
  {
    TrieParts(p, P);
    hide LinkedTrie; hide TreeOk; hide Preorder; hide Once; hide CodesOf; hide MinCode; hide Linked; hide Lists;
    var t, ns := Shape(p), Preorder(Shape(p), 0);
    forall i | 0 <= i < |ns| && Forks(t, ns, i) ensures Spared(t, ns, i) {
      LeastOfCodes(t, ns[i], MinCode(CodesOf(t, ns[i])));
      ChildrenFollow(p, P, ns[i]);
    }
    SparedOnce(t, last);
  }

  // ---------- Examples ----------

}