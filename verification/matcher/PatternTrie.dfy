// The pointer trie the matcher is built from: insertion of patterns, and the breadth-first
// pass that sets fail links and outputs. Nodes refer to each other by number.
module PatternTrie {
  import opened Utf8
  import opened Automaton

  datatype Node = Node(code: nat, matched: nat, fail: nat, children: map<nat, nat>)

  // The node at each number has the path and the parent at that number; a child extends its
  // parent's path and is younger than its parent.
  ghost predicate Linked(nodes: seq<Node>, paths: seq<Path>, parents: seq<nat>) {
    |nodes| == |paths| == |parents| && |nodes| > 0 && paths[0] == [] &&
    (forall a, b :: 0 <= a < b < |paths| ==> paths[a] != paths[b]) &&
    (forall n, c :: 0 <= n < |nodes| && c in nodes[n].children ==> ChildOk(nodes, paths, n, c)) &&
    (forall m :: 0 < m < |nodes| ==> ParentOk(nodes, parents[m], m))
  }

  ghost predicate ChildOk(nodes: seq<Node>, paths: seq<Path>, n: nat, c: nat)
    requires |nodes| == |paths| && n < |nodes| && c in nodes[n].children
  {
    var m := nodes[n].children[c];
    1 <= c <= MAX_CODE && n < m < |nodes| && paths[m] == paths[n] + [c] && nodes[m].code == c
  }

  ghost predicate ParentOk(nodes: seq<Node>, n: nat, m: nat)
    requires m < |nodes|
  {
    n < m && var c := nodes[m].code; c in nodes[n].children && nodes[n].children[c] == m
  }

  ghost function PathSet(paths: seq<Path>): set<Path> {
    set i | 0 <= i < |paths| :: paths[i]
  }

  lemma PathsArePrefixClosed(nodes: seq<Node>, paths: seq<Path>, parents: seq<nat>)
    requires Linked(nodes, paths, parents)
    ensures PrefixClosed(PathSet(paths))
  {
    assert paths[0] == [];
    forall x | x in PathSet(paths) && x != []
      ensures x[..|x| - 1] in PathSet(paths)
    {
      var m :| 0 <= m < |paths| && paths[m] == x;
      assert m != 0;
      var n := parents[m];
      assert ParentOk(nodes, n, m);
      assert ChildOk(nodes, paths, n, nodes[m].code);
      assert x[..|x| - 1] == paths[n];
    }
  }

  // A node has a child for a code exactly if its path extended by the code is in the trie.
  lemma ChildIffPath(nodes: seq<Node>, paths: seq<Path>, parents: seq<nat>, n: nat, c: nat)
    requires Linked(nodes, paths, parents) && n < |nodes|
    ensures c in nodes[n].children <==> paths[n] + [c] in PathSet(paths)
  {
    if c in nodes[n].children {
      assert ChildOk(nodes, paths, n, c);
      assert paths[nodes[n].children[c]] in PathSet(paths);
    }
    if paths[n] + [c] in PathSet(paths) {
      var m :| 0 <= m < |paths| && paths[m] == paths[n] + [c];
      assert m != 0;
      var p := parents[m];
      assert ParentOk(nodes, p, m);
      assert ChildOk(nodes, paths, p, nodes[m].code);
      assert paths[m][..|paths[m]| - 1] == paths[p] && paths[m][..|paths[m]| - 1] == paths[n];
      assert p == n;
      assert paths[m][|paths[m]| - 1] == c;
    }
  }

  // Each node's matched size is the size of its path if that is a pattern, else 0.
  ghost predicate OwnSizes(nodes: seq<Node>, paths: seq<Path>, P: set<Path>)
    requires |nodes| == |paths|
  {
    forall n :: 0 <= n < |nodes| ==> nodes[n].matched == if paths[n] in P then Size(paths[n]) else 0
  }

  lemma SizeSnoc(p: Path, c: nat)
    ensures Size(p + [c]) == Size(p) + Width(c)
  {
    assert (p + [c])[..|p|] == p;
  }

  lemma {:induction false} SizeCons(c: nat, p: Path)
    ensures Size([c] + p) == Width(c) + Size(p)
  {
    if p == [] {
      assert [c] + p == [] + [c];
      SizeSnoc([], c);
    } else {
      SizeCons(c, p[..|p| - 1]);
      assert ([c] + p)[..|p|] == [c] + p[..|p| - 1];
    }
  }

  // The size of a pattern's path is the pattern's length in bytes.
  lemma {:induction false} SizeOfCodes(p: Text, fold: bool)
    requires WellFormed(p) && Supported(p, fold)
    ensures Size(Codes(p, fold)) == |p|
    decreases |p|
  {
    if p != [] {
      SupportedTail(p, fold);
      TextTail(p, fold);
      var w := CharLength(p[0]);
      CodeWidth(p[..w], fold);
      SizeOfCodes(p[w..], fold);
      SizeCons(Code(p[..w], fold), Codes(p[w..], fold));
    }
  }

  // Patterns a build accepts: well-formed text whose characters all have codes.
  ghost predicate Acceptable(patterns: seq<Text>, fold: bool) {
    forall i :: 0 <= i < |patterns| ==> WellFormed(patterns[i]) && Supported(patterns[i], fold)
  }

  // The code strings of the patterns.
  ghost function PatternCodes(patterns: seq<Text>, fold: bool): set<Path>
    requires Acceptable(patterns, fold)
  {
    set i | 0 <= i < |patterns| :: Codes(patterns[i], fold)
  }

  // The trie holds the patterns and nothing but their prefixes.
  ghost predicate Holds(nodes: seq<Node>, paths: seq<Path>, P: set<Path>) {
    |nodes| == |paths| && OwnSizes(nodes, paths, P) && P <= PathSet(paths) &&
    forall i :: 0 < i < |paths| ==> PrefixOfOne(paths[i], P)
  }

  ghost predicate PrefixOfOne(x: Path, P: set<Path>) {
    exists p :: p in P && x <= p
  }

  // The trie of no patterns.
  lemma EmptyHolds()
    ensures Holds([Node(0, 0, 0, map[])], [[]], {})
  {}

  // The trie has only gained unmarked nodes, whose paths are prefixes of limit.
  ghost predicate Grown(nodes0: seq<Node>, paths0: seq<Path>, nodes: seq<Node>, paths: seq<Path>, limit: Path) {
    |nodes0| == |paths0| <= |paths| == |nodes| && paths[..|paths0|] == paths0 &&
    (forall k :: 0 <= k < |nodes| ==> nodes[k].matched == if k < |nodes0| then nodes0[k].matched else 0) &&
    (forall k :: |paths0| <= k < |paths| ==> paths[k] <= limit)
  }

  lemma GrownTwice(nodes0: seq<Node>, paths0: seq<Path>, nodes1: seq<Node>, paths1: seq<Path>, nodes: seq<Node>,
                   paths: seq<Path>, x: Path, limit: Path)
    requires Grown(nodes0, paths0, nodes1, paths1, limit) && Grown(nodes1, paths1, nodes, paths, x) && x <= limit
    ensures Grown(nodes0, paths0, nodes, paths, limit)
  {
    assert paths[..|paths0|] == paths[..|paths1|][..|paths0|];
  }

  class Trie {
    var nodes: seq<Node>
    ghost var paths: seq<Path>
    ghost var parents: seq<nat>

    ghost predicate Valid()
      reads this
    {
      Linked(nodes, paths, parents)
    }

    constructor ()
      ensures Valid() && nodes == [Node(0, 0, 0, map[])] && paths == [[]]
    {
      nodes := [Node(0, 0, 0, map[])];
      paths := [[]];
      parents := [0];
    }

    // The child of n for code c, made if it is missing.
    method Child(n: nat, c: nat) returns (m: nat)
      requires Valid() && n < |nodes| && 1 <= c <= MAX_CODE
      modifies this
      ensures Valid() && m < |nodes| == |paths| && paths[m] == old(paths)[n] + [c]
      ensures Grown(old(nodes), old(paths), nodes, paths, old(paths)[n] + [c])
    {
      if c in nodes[n].children {
        assert ChildOk(nodes, paths, n, c);
        m := nodes[n].children[c];
        return;
      }
      ChildIffPath(nodes, paths, parents, n, c);
      m := |nodes|;
      ghost var before, beforePaths, beforeParents := nodes, paths, parents;
      nodes := nodes[n := nodes[n].(children := nodes[n].children[c := m])] + [Node(c, 0, 0, map[])];
      paths := paths + [paths[n] + [c]];
      parents := parents + [n];
      ChildAdded(before, beforePaths, beforeParents, n, c);
    }

    // Follows or makes the path of a pattern.
    method Walk(p: Text, fold: bool) returns (curr: nat)
      requires Valid() && WellFormed(p) && Supported(p, fold)
      modifies this
      ensures Valid() && curr < |nodes| == |paths| && paths[curr] == Codes(p, fold)
      ensures Grown(old(nodes), old(paths), nodes, paths, Codes(p, fold))
    {
      hide Supported; hide Linked; hide WellFormed; hide Codes;
      var i: nat := 0;
      curr := 0;
      assert p[0..] == p;
      assert Grown(nodes, paths, nodes, paths, Codes(p, fold)) by { RootPath(nodes, paths, parents); }
      hide Grown;
      RootPath(nodes, paths, parents);
      assert [] + Codes(p, fold) == Codes(p, fold);
      while i < |p|
        invariant i <= |p| && curr < |nodes| == |paths|
        invariant Valid() && WellFormed(p[i..]) && Supported(p[i..], fold)
        invariant paths[curr] + Codes(p[i..], fold) == Codes(p, fold)
        invariant Grown(old(nodes), old(paths), nodes, paths, Codes(p, fold))
      {
        var code, length := ReadCode(p, i, fold);
        ghost var before, rest := paths[curr], Codes(p[i + length..], fold);
        ghost var nodes1, paths1 := nodes, paths;
        curr := Child(curr, code);
        MoveOver(before, code, rest, Codes(p, fold));
        GrownTwice(old(nodes), old(paths), nodes1, paths1, nodes, paths, before + [code], Codes(p, fold));
        i := i + length;
      }
      assert p[|p|..] == [];
      NoCodes(fold);
      assert paths[curr] + [] == paths[curr];
    }

    // Follows or makes the path of a pattern and notes its length at the end.
    method AddPattern(p: Text, fold: bool, ghost P: set<Path>)
      requires Valid() && WellFormed(p) && Supported(p, fold) && Holds(nodes, paths, P)
      modifies this
      ensures Valid() && Holds(nodes, paths, P + {Codes(p, fold)})
    {
      hide Supported; hide Linked; hide WellFormed; hide Codes; hide Holds;
      var curr := Walk(p, fold);
      SizeOfCodes(p, fold);
      ghost var unmarked := nodes;
      nodes := nodes[curr := nodes[curr].(matched := |p|)];
      Marked(unmarked, paths, parents, curr, |p|);
      PatternHeld(old(nodes), old(paths), unmarked, nodes, paths, parents, curr, P);
    }

    // Inserts every pattern.
    method Insert(patterns: seq<Text>, fold: bool)
      requires Valid() && Acceptable(patterns, fold) && Holds(nodes, paths, {})
      modifies this
      ensures Valid() && Holds(nodes, paths, PatternCodes(patterns, fold))
    {
      hide Holds; hide Linked; hide Supported;
      var i := 0;
      ghost var P: set<Path> := {};
      while i < |patterns|
        invariant 0 <= i <= |patterns|
        invariant Valid() && Holds(nodes, paths, P)
        invariant P == set k | 0 <= k < i :: Codes(patterns[k], fold)
      {
        AddPattern(patterns[i], fold, P);
        P := P + {Codes(patterns[i], fold)};
        i := i + 1;
      }
      assert P == PatternCodes(patterns, fold);
    }
  }

  // The code of the character that starts at byte i, and its length.
  method ReadCode(p: Text, i: nat, fold: bool) returns (code: nat, length: nat)
    requires i < |p| && WellFormed(p[i..]) && Supported(p[i..], fold)
    ensures 1 <= code <= MAX_CODE && 1 <= length && i + length <= |p|
    ensures WellFormed(p[i + length..]) && Supported(p[i + length..], fold)
    ensures Codes(p[i..], fold) == [code] + Codes(p[i + length..], fold)
  {
    hide Supported; hide Code; hide GoodChar;
    ghost var rest := p[i..];
    TextTail(rest, fold);
    SupportedTail(rest, fold);
    length := CharLength(p[i]);
    assert rest[..length] == p[i..i + length] && rest[length..] == p[i + length..];
    var ch := ReadChar(p, i, length);
    code := CharCode(ch, fold);
    CodeIs(rest[..length], fold);
  }

  // The character that starts at byte i, read by its announced length.
  method ReadChar(p: Text, i: nat, length: nat) returns (ch: nat)
    requires i < |p| && length == CharLength(p[i]) && 1 <= length && i + length <= |p|
    ensures ch == Decode(p[i..i + length])
  {
    match length {
      case 1 => ch := p[i];
      case 2 => ch := Decode2(p[i], p[i + 1]);
      case 3 => ch := Decode3(p[i], p[i + 1], p[i + 2]);
      case _ => ch := Decode4(p[i], p[i + 1], p[i + 2], p[i + 3]);
    }
  }

  lemma MoveOver(x: Path, c: nat, rest: Path, all: Path)
    requires x + ([c] + rest) == all
    ensures (x + [c]) + rest == all && x + [c] <= all
  {
    assert x + ([c] + rest) == (x + [c]) + rest;
  }

  lemma NoCodes(fold: bool)
    ensures Codes([], fold) == []
  {}

  lemma CodeIs(c: Text, fold: bool)
    requires 1 <= |c| <= 4
    ensures Code(c, fold) == CharCode(Decode(c), fold)
  {}

  lemma RootPath(nodes: seq<Node>, paths: seq<Path>, parents: seq<nat>)
    requires Linked(nodes, paths, parents)
    ensures |nodes| == |paths| > 0 && paths[0] == []
  {}

  // Noting a matched size does not disturb the links.
  lemma Marked(nodes: seq<Node>, paths: seq<Path>, parents: seq<nat>, n: nat, size: nat)
    requires Linked(nodes, paths, parents) && n < |nodes|
    ensures Linked(nodes[n := nodes[n].(matched := size)], paths, parents)
  {
    var nodes' := nodes[n := nodes[n].(matched := size)];
    forall k, c | 0 <= k < |nodes'| && c in nodes'[k].children
      ensures ChildOk(nodes', paths, k, c)
    {
      assert c in nodes[k].children && ChildOk(nodes, paths, k, c);
    }
    forall m | 0 < m < |nodes'| ensures ParentOk(nodes', parents[m], m) {
      assert ParentOk(nodes, parents[m], m);
    }
  }

  // The patterns held before are paths of older nodes.
  lemma OldPath(nodes0: seq<Node>, paths0: seq<Path>, nodes1: seq<Node>, paths: seq<Path>, limit: Path, P: set<Path>,
                x: Path) returns (k: nat)
    requires Holds(nodes0, paths0, P) && Grown(nodes0, paths0, nodes1, paths, limit) && x in P
    ensures k < |paths0| <= |paths| && paths[k] == paths0[k] == x
  {
    assert x in PathSet(paths0);
    k :| 0 <= k < |paths0| && paths0[k] == x;
    assert paths[k] == paths[..|paths0|][k];
  }

  lemma OwnSizesHeld(nodes0: seq<Node>, paths0: seq<Path>, nodes1: seq<Node>, nodes: seq<Node>, paths: seq<Path>,
                     parents: seq<nat>, curr: nat, P: set<Path>)
    requires Holds(nodes0, paths0, P) && Linked(nodes, paths, parents) && curr < |nodes| == |nodes1|
    requires Grown(nodes0, paths0, nodes1, paths, paths[curr])
    requires nodes == nodes1[curr := nodes1[curr].(matched := Size(paths[curr]))]
    ensures OwnSizes(nodes, paths, P + {paths[curr]})
  {
    hide PathSet; hide PrefixOfOne;
    forall n | 0 <= n < |nodes|
      ensures nodes[n].matched == if paths[n] in P + {paths[curr]} then Size(paths[n]) else 0
    {
      if n < |nodes0| {
        assert paths[n] == paths0[n];
      } else {
        forall x | x in P ensures x != paths[n] {
          var k := OldPath(nodes0, paths0, nodes1, paths, paths[curr], P, x);
        }
      }
    }
  }

  lemma PathsHeld(nodes0: seq<Node>, paths0: seq<Path>, nodes1: seq<Node>, paths: seq<Path>, curr: nat, P: set<Path>)
    requires Holds(nodes0, paths0, P) && curr < |paths| && Grown(nodes0, paths0, nodes1, paths, paths[curr])
    ensures P + {paths[curr]} <= PathSet(paths)
  {
    hide Holds; hide Grown;
    forall p | p in P + {paths[curr]} ensures p in PathSet(paths) {
      if p in P {
        var k := OldPath(nodes0, paths0, nodes1, paths, paths[curr], P, p);
      }
    }
  }

  lemma PrefixesHeld(nodes0: seq<Node>, paths0: seq<Path>, nodes1: seq<Node>, paths: seq<Path>, curr: nat, P: set<Path>)
    requires Holds(nodes0, paths0, P) && curr < |paths| && Grown(nodes0, paths0, nodes1, paths, paths[curr])
    ensures forall i :: 0 < i < |paths| ==> PrefixOfOne(paths[i], P + {paths[curr]})
  {
    hide PathSet; hide OwnSizes;
    var P' := P + {paths[curr]};
    forall i | 0 < i < |paths| ensures PrefixOfOne(paths[i], P') {
      if i < |paths0| {
        assert paths[i] == paths0[i] && PrefixOfOne(paths0[i], P);
        var p :| p in P && paths[i] <= p;
        assert p in P' && paths[i] <= p;
      } else {
        assert paths[curr] in P' && paths[i] <= paths[curr];
      }
    }
  }

  lemma PatternHeld(nodes0: seq<Node>, paths0: seq<Path>, nodes1: seq<Node>, nodes: seq<Node>, paths: seq<Path>,
                    parents: seq<nat>, curr: nat, P: set<Path>)
    requires Holds(nodes0, paths0, P) && Linked(nodes, paths, parents) && curr < |nodes| == |nodes1|
    requires Grown(nodes0, paths0, nodes1, paths, paths[curr])
    requires nodes == nodes1[curr := nodes1[curr].(matched := Size(paths[curr]))]
    ensures Holds(nodes, paths, P + {paths[curr]})
  {
    OwnSizesHeld(nodes0, paths0, nodes1, nodes, paths, parents, curr, P);
    PathsHeld(nodes0, paths0, nodes1, paths, curr, P);
    PrefixesHeld(nodes0, paths0, nodes1, paths, curr, P);
    hide OwnSizes; hide PathSet; hide PrefixOfOne;
  }

  lemma ChildAdded(nodes: seq<Node>, paths: seq<Path>, parents: seq<nat>, n: nat, c: nat)
    requires Linked(nodes, paths, parents) && n < |nodes| && 1 <= c <= MAX_CODE
    requires c !in nodes[n].children && paths[n] + [c] !in PathSet(paths)
    ensures Linked(nodes[n := nodes[n].(children := nodes[n].children[c := |nodes|])] + [Node(c, 0, 0, map[])],
                   paths + [paths[n] + [c]], parents + [n])
  {
    var m := |nodes|;
    var nodes' := nodes[n := nodes[n].(children := nodes[n].children[c := m])] + [Node(c, 0, 0, map[])];
    var paths' := paths + [paths[n] + [c]];
    var parents' := parents + [n];
    forall a, b | 0 <= a < b < |paths'| ensures paths'[a] != paths'[b] {
      if b == m { assert paths[a] in PathSet(paths); }
    }
    forall k, d | 0 <= k < |nodes'| && d in nodes'[k].children
      ensures ChildOk(nodes', paths', k, d)
    {
      if !(k == n && d == c) { assert k < m && d in nodes[k].children && ChildOk(nodes, paths, k, d); }
    }
    forall k | 0 < k < |nodes'|
      ensures ParentOk(nodes', parents'[k], k)
    {
      if k < m {
        assert ParentOk(nodes, parents[k], k);
        assert nodes'[k].code == nodes[k].code;
        assert nodes'[parents[k]].children ==
               if parents[k] == n then nodes[n].children[c := m] else nodes[parents[k]].children;
      }
    }
  }
}
