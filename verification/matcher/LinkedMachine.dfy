// Copying the fail links into the double array, and the finished machine: when arrays are the
// linked trie of the patterns.
module LinkedMachine {
  import opened Utf8
  import opened Automaton
  import opened PatternTrie
  import opened FailLinks
  import opened Allocation
  import opened Placing
  import opened Tour
  import opened Running
  import opened OncePass

  ghost predicate AllZero(s: seq<nat>) {
    forall x :: 0 <= x < |s| ==> s[x] == 0
  }

  // ---------- Fail links ----------

  ghost predicate FailsInside(nodes: seq<Node>) {
    forall m :: 0 < m < |nodes| ==> nodes[m].fail < |nodes|
  }

  ghost predicate SlotsInside(slot: seq<nat>, count: nat, size: nat) {
    |slot| == count && forall m :: 0 <= m < |slot| ==> slot[m] < size
  }

  // Only slots of nodes other than the root have fail links.
  ghost predicate NoOtherLinks(slot: seq<nat>, fail: seq<nat>) {
    |slot| > 0 && forall x :: 0 <= x < |fail| && x !in slot[1..] ==> fail[x] == 0
  }

  // If no two nodes share a slot, then the nodes of F have their fail links in the array.
  ghost predicate FailsCopied(nodes: seq<Node>, slot: seq<nat>, fail: seq<nat>, F: set<nat>) {
    FailsInside(nodes) && SlotsInside(slot, |nodes|, |fail|) && NoOtherLinks(slot, fail) &&
    (Distinct(slot) ==> forall m :: m in F && 0 < m < |nodes| ==> fail[slot[m]] == slot[nodes[m].fail])
  }

  ghost predicate LinksPacked(nodes: seq<Node>, fail: seq<nat>, slot: seq<nat>) {
    FailsInside(nodes) && SlotsInside(slot, |nodes|, |fail|) &&
    (Distinct(slot) ==> forall m :: 0 < m < |nodes| ==> fail[slot[m]] == slot[nodes[m].fail])
  }

  lemma NoneCopied(nodes: seq<Node>, slot: seq<nat>, fail: seq<nat>)
    requires |nodes| > 0 && FailsInside(nodes) && SlotsInside(slot, |nodes|, |fail|) && AllZero(fail)
    ensures FailsCopied(nodes, slot, fail, MetSet({0}, []))
  {}

  lemma CopyOne(nodes: seq<Node>, slot: seq<nat>, fail: seq<nat>, done: set<nat>, queue: seq<nat>, m: nat)
    requires FailsCopied(nodes, slot, fail, MetSet(done, queue)) && 0 < m < |nodes|
    ensures slot[m] < |fail|
    ensures FailsCopied(nodes, slot, fail[slot[m] := slot[nodes[m].fail]], MetSet(done, queue + [m]))
  {
    assert MetSet(done, queue + [m]) == MetSet(done, queue) + {m};
    assert slot[1..][m - 1] == slot[m];
  }

  lemma AllCopied(t: Tree, slot: seq<nat>, fail: seq<nat>, done: set<nat>, curr: nat)
    requires TreeOk(t) && Frontier(t.nodes, t.paths, t.parents, done, [], curr, {})
    requires FailsCopied(t.nodes, slot, fail, MetSet(done, []))
    ensures LinksPacked(t.nodes, fail, slot) && NoOtherLinks(slot, fail)
  {
    hide Frontier;
    forall m | 0 <= m < |t.nodes| ensures m in MetSet(done, []) {
      FrontierEnd(t.nodes, t.paths, t.parents, done, curr, m);
    }
  }

  // ---------- The finished machine ----------

  // A pointer trie and the slots of its nodes.
  datatype Plan = Plan(nodes: seq<Node>, paths: seq<Path>, parents: seq<nat>, slot: seq<nat>)

  // The trie of the patterns P, with fail links and outputs.
  ghost predicate LinkedTrie(p: Plan, P: set<Path>) {
    Linked(p.nodes, p.paths, p.parents) && P <= PathSet(p.paths) &&
    (forall n :: 0 < n < |p.nodes| ==> PrefixOfOne(p.paths[n], P)) &&
    forall n :: 0 <= n < |p.nodes| ==> Final(p.nodes, p.paths, P, n)
  }

  ghost predicate Represents(p: Plan, patterns: seq<Text>, fold: bool) {
    Acceptable(patterns, fold) && LinkedTrie(p, PatternCodes(patterns, fold))
  }

  // The arrays are the linked trie of P.
  ghost predicate Machine(p: Plan, P: set<Path>, a: Arrays) {
    LinkedTrie(p, P) && Packed(p.nodes, a.base, a.check, p.slot) && OutputsPacked(p.nodes, a.output, p.slot) &&
    LinksPacked(p.nodes, a.fail, p.slot)
  }

  lemma TrieLinked(nodes: seq<Node>, nodes0: seq<Node>, paths: seq<Path>, parents: seq<nat>, P: set<Path>)
    requires Linked(nodes, paths, parents) && Holds(nodes0, paths, P)
    requires |paths| == |nodes| && forall n :: 0 <= n < |nodes| ==> Final(nodes, paths, P, n)
    ensures LinkedTrie(Plan(nodes, paths, parents, []), P) && FailsInside(nodes)
  {
    hide Linked; hide IsOutput; hide IsFail; hide PrefixOfOne; hide PathSet; hide OwnSizes;
    forall m | 0 < m < |nodes| ensures nodes[m].fail < |nodes| { assert Final(nodes, paths, P, m); }
  }

  lemma PackTrie(nodes: seq<Node>, paths: seq<Path>, parents: seq<nat>, slot: seq<nat>, P: set<Path>)
    requires LinkedTrie(Plan(nodes, paths, parents, []), P)
    ensures LinkedTrie(Plan(nodes, paths, parents, slot), P)
  {}

  lemma SlotsAreInside(slot: seq<nat>, count: nat, size: nat)
    requires |slot| == count && forall m :: 0 <= m < |slot| ==> slot[m] < size
    ensures SlotsInside(slot, count, size)
  {}

  lemma MachineParted(p: Plan, P: set<Path>, a: Arrays)
    ensures Machine(p, P, a) <==>
            LinkedTrie(p, P) && Packed(p.nodes, a.base, a.check, p.slot) && OutputsPacked(p.nodes, a.output, p.slot) &&
            LinksPacked(p.nodes, a.fail, p.slot)
  {
    hide LinkedTrie; hide Packed; hide OutputsPacked; hide LinksPacked;
  }

  // ---------- What a build leaves ----------

  function Shape(p: Plan): Tree {
    Tree(p.nodes, p.paths, p.parents)
  }

  // The arrays are what the placing pass leaves of a trie in arrays whose chain ends at last. If
  // the pass came to its end, the fail links have been copied.
  ghost predicate Built(p: Plan, last: nat, a: Arrays) {
    TreeOk(Shape(p)) && ChainEnd(last) &&
    var r := Outcome(Shape(p), last);
    a.base == r.base && a.check == r.s.check && a.output == r.output && p.slot == r.slot && |a.fail| == |a.base| &&
    (r.stack == [] ==> LinksPacked(p.nodes, a.fail, p.slot) && NoOtherLinks(p.slot, a.fail))
  }

  // The arrays are a machine exactly if every node was placed once.
  lemma BuiltMachine(p: Plan, P: set<Path>, last: nat, a: Arrays)
    requires LinkedTrie(p, P) && Built(p, last, a)
    ensures Machine(p, P, a) <==> Once(Shape(p), last)
    ensures Machine(p, P, a) <==> Packed(p.nodes, a.base, a.check, p.slot)
  {
    OnceIsPacked(Shape(p), last);
    hide LinkedTrie; hide Packed; hide OutputsPacked; hide LinksPacked; hide Outcome; hide Once; hide TreeOk;
    MachineParted(p, P, a);
  }
}
