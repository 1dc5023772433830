// A correct packing of a pointer trie into the double array, and the placing of one node's
// children: how the arrays change, and what that keeps true.
module Placing {
  import opened Utf8
  import opened Automaton
  import opened PatternTrie
  import opened FailLinks
  import opened Allocation

  // ---------- A packing ----------

  // The arrays say that slot s moves to another slot on code c.
  predicate Moves(base: seq<int>, check: seq<nat>, s: nat, c: nat)
    requires s < |base|
  {
    0 <= base[s] + c < |check| && check[base[s] + c] == s
  }

  // The packed arrays are the trie: one slot to a node, no slot used for anything else, and
  // moves for exactly the children. The root's check of itself is the one exception.
  ghost predicate Packed(nodes: seq<Node>, base: seq<int>, check: seq<nat>, slot: seq<nat>) {
    |slot| == |nodes| > 0 && |base| == |check| && slot[0] == 1 &&
    (forall m :: 0 <= m < |nodes| ==> 1 <= slot[m] < |check| && check[slot[m]] != 0) &&
    (forall m, k :: 0 <= m < k < |nodes| ==> slot[m] != slot[k]) &&
    (forall x :: 0 <= x < |check| && check[x] != 0 ==> x in slot) &&
    forall n, c: nat :: 0 <= n < |nodes| ==> MovesToChild(nodes, base, check, slot, n, c)
  }

  ghost predicate MovesToChild(nodes: seq<Node>, base: seq<int>, check: seq<nat>, slot: seq<nat>, n: nat, c: nat)
    requires n < |nodes| == |slot| && slot[n] < |base|
  {
    (c in nodes[n].children ==>
      nodes[n].children[c] < |nodes| && Moves(base, check, slot[n], c) &&
      base[slot[n]] + c == slot[nodes[n].children[c]]) &&
    (c !in nodes[n].children && Moves(base, check, slot[n], c) ==> n == 0 && base[slot[n]] + c == slot[0])
  }

  // ---------- The state of the pass ----------

  // A pointer trie with the paths and parents of its nodes.
  datatype Tree = Tree(nodes: seq<Node>, paths: seq<Path>, parents: seq<nat>)

  ghost predicate TreeOk(t: Tree) {
    Linked(t.nodes, t.paths, t.parents)
  }

  // A node on the stack, how many visits to children it has made, and the codes of its children
  // in the order of visits, empty until they are placed.
  datatype Entry = Entry(node: nat, next: nat, order: seq<nat>)

  // The pass that places a trie: the allocator's slots, the last slot of the chain, a bound on the
  // used slots, the base and output arrays, the nodes' slots (0 for none yet) and the stack.
  datatype Run = Run(s: Slots, last: nat, top: nat, base: seq<int>, output: seq<nat>, slot: seq<nat>,
                     stack: seq<Entry>)

  ghost predicate CodesKnown(nodes: seq<Node>, n: nat, codes: seq<nat>)
    requires n < |nodes|
  {
    forall j :: 0 <= j < |codes| ==> codes[j] in nodes[n].children
  }

  // The children of n are nodes with the codes under which they are children.
  ghost predicate ChildrenInside(nodes: seq<Node>, n: nat)
    requires n < |nodes|
  {
    forall c :: c in nodes[n].children ==>
      nodes[n].children[c] < |nodes| && nodes[nodes[n].children[c]].code == c
  }

  // The sizes match, and the allocator is sound but for one slot.
  ghost predicate Sized(nodes: seq<Node>, r: Run, hole: int) {
    Sound(r.s, r.last, r.top, hole) && |r.base| == |r.output| == |r.s.check| && |r.slot| == |nodes| &&
    forall m :: 0 <= m < |r.slot| ==> r.slot[m] < |r.s.check|
  }

  // ---------- Placing children ----------

  // The child of n for code c goes to its slot.
  function PlaceCode(nodes: seq<Node>, n: nat, base: int, c: nat, owner: nat, r: Run): Run
    requires n < |nodes| == |r.slot| && c in nodes[n].children && nodes[n].children[c] < |nodes|
    requires 0 <= base + c < |r.s.check| == |r.output| && (base + c) / BLOCK < |r.s.used|
  {
    var x, m := base + c, nodes[n].children[c];
    r.(s := r.s.(check := r.s.check[x := owner], used := r.s.used[x / BLOCK := r.s.used[x / BLOCK] + 1]),
       top := if x > r.top then x else r.top, output := r.output[x := nodes[m].matched], slot := r.slot[m := x])
  }

  // What placing children needs: known codes whose slots are inside the arrays.
  ghost predicate Fitting(nodes: seq<Node>, n: nat, base: int, codes: seq<nat>, r: Run) {
    n < |nodes| == |r.slot| && CodesKnown(nodes, n, codes) && ChildrenInside(nodes, n) &&
    |r.s.check| == |r.output| == |r.s.used| * BLOCK &&
    forall i :: 0 <= i < |codes| ==> 0 <= base + codes[i] < |r.s.check|
  }

  // The children of n for the codes go to their slots, one after another.
  ghost function PlaceCodes(nodes: seq<Node>, n: nat, base: int, codes: seq<nat>, owner: nat, r: Run): (r': Run)
    requires Fitting(nodes, n, base, codes, r)
    ensures |r'.s.check| == |r'.output| == |r.output| && |r'.s.used| == |r.s.used| && |r'.slot| == |r.slot|
    decreases |codes|
  {
    if codes == [] then r
    else
      var k := |codes| - 1;
      assert codes == codes[..k] + [codes[k]];
      PlaceCode(nodes, n, base, codes[k], owner, PlaceCodes(nodes, n, base, codes[..k], owner, r))
  }

  lemma FittingNone(nodes: seq<Node>, n: nat, base: int, codes: seq<nat>, r: Run)
    requires Fitting(nodes, n, base, codes, r)
    ensures Fitting(nodes, n, base, codes[..0], r)
  {}

  lemma FittingSnoc(nodes: seq<Node>, n: nat, base: int, codes: seq<nat>, owner: nat, r: Run, i: nat)
    requires Fitting(nodes, n, base, codes, r) && i < |codes|
    ensures Fitting(nodes, n, base, codes[..i], r) && Fitting(nodes, n, base, codes[..i + 1], r)
    ensures codes[i] in nodes[n].children && nodes[n].children[codes[i]] < |nodes|
    ensures 0 <= base + codes[i] < |r.s.check| && (base + codes[i]) / BLOCK < |r.s.used|
    ensures PlaceCodes(nodes, n, base, codes[..i + 1], owner, r) ==
            PlaceCode(nodes, n, base, codes[i], owner, PlaceCodes(nodes, n, base, codes[..i], owner, r))
  {
    assert codes[..i + 1][..i] == codes[..i];
  }

  // The arrays after a base was found in them.
  function Based(r: Run, n: nat, c: Choice): Run
    requires n < |r.slot| && |r.base| <= |c.s.check| && |r.output| <= |c.s.check| && r.slot[n] < |c.s.check|
  {
    r.(s := c.s, last := c.last, base := Resize(r.base, |c.s.check|, 0)[r.slot[n] := c.base],
       output := Resize(r.output, |c.s.check|, 0))
  }

  // One event: the children of n, for the given codes, are placed at a base. The arrays go from r
  // to r', between which they may have grown.
  datatype Placing = Placing(n: nat, base: int, codes: seq<nat>, r: Run, r': Run)

  // The arrays after an event, slot by slot and node by node.
  ghost predicate PlacedAt(nodes: seq<Node>, g: Placing)
    requires g.n < |nodes| && CodesKnown(nodes, g.n, g.codes)
  {
    |g.r.slot| == |g.r'.slot| == |nodes| && |g.r.base| == |g.r.s.check| == |g.r.output| &&
    g.r.slot[g.n] < |g.r.base| && |g.r'.s.check| == |g.r'.output| == |g.r.base| &&
    g.r'.base == g.r.base[g.r.slot[g.n] := g.base] &&
    (forall x :: 0 <= x < |g.r'.s.check| ==>
      g.r'.s.check[x] == if x - g.base in g.codes then g.r.slot[g.n] else g.r.s.check[x]) &&
    (forall x :: 0 <= x < |g.r'.output| ==> OutputAt(nodes, g, x)) &&
    forall m :: 0 <= m < |g.r'.slot| ==>
      g.r'.slot[m] == if IsChild(nodes, g.n, g.codes, m) then g.base + nodes[m].code else g.r.slot[m]
  }

  ghost predicate OutputAt(nodes: seq<Node>, g: Placing, x: nat)
    requires g.n < |nodes| && CodesKnown(nodes, g.n, g.codes) && x < |g.r.output| == |g.r'.output|
  {
    if x - g.base in g.codes then
      var m := nodes[g.n].children[x - g.base]; m < |nodes| && g.r'.output[x] == nodes[m].matched
    else g.r'.output[x] == g.r.output[x]
  }

  // m is the child of n for one of the codes.
  ghost predicate IsChild(nodes: seq<Node>, n: nat, codes: seq<nat>, m: nat)
    requires n < |nodes| && m < |nodes|
  {
    nodes[m].code in codes && nodes[m].code in nodes[n].children && nodes[n].children[nodes[m].code] == m
  }

  // Whether m is the child for one of the codes or for one more.
  lemma ChildOfMore(nodes: seq<Node>, n: nat, codes: seq<nat>, c: nat, m: nat)
    requires n < |nodes| && m < |nodes| && ChildrenInside(nodes, n) && c in nodes[n].children
    ensures IsChild(nodes, n, codes + [c], m) <==> IsChild(nodes, n, codes, m) || m == nodes[n].children[c]
  {}

  // Placing one more child.
  lemma PlacedOne(nodes: seq<Node>, g: Placing, c: nat)
    requires g.n < |nodes| && ChildrenInside(nodes, g.n) && c in nodes[g.n].children
    requires CodesKnown(nodes, g.n, g.codes + [c]) && CodesKnown(nodes, g.n, g.codes) && PlacedAt(nodes, g)
    requires 0 <= g.base + c < |g.r.s.check| && (g.base + c) / BLOCK < |g.r'.s.used|
    ensures PlacedAt(nodes, g.(codes := g.codes + [c],
                               r' := PlaceCode(nodes, g.n, g.base, c, g.r.slot[g.n], g.r')))
  {
    var g' := g.(codes := g.codes + [c], r' := PlaceCode(nodes, g.n, g.base, c, g.r.slot[g.n], g.r'));
    assert nodes[g.n].children[c] < |nodes| && nodes[nodes[g.n].children[c]].code == c;
    hide ChildrenInside; hide CodesKnown; hide IsChild;
    forall x | 0 <= x < |g'.r'.output| ensures OutputAt(nodes, g', x) {
      assert OutputAt(nodes, g, x);
    }
    forall m | 0 <= m < |g'.r'.slot|
      ensures g'.r'.slot[m] == if IsChild(nodes, g.n, g'.codes, m) then g.base + nodes[m].code else g.r.slot[m]
    {
      ChildOfMore(nodes, g.n, g.codes, c, m);
    }
  }

  // The arrays once the base of n is written and its children are in their slots.
  lemma {:induction false} PlacedAll(nodes: seq<Node>, n: nat, base: int, codes: seq<nat>, r: Run, r1: Run)
    requires Fitting(nodes, n, base, codes, r1) && |r.base| == |r.s.check| == |r.output| && |r.slot| == |nodes|
    requires r.slot[n] < |r.base| && r1 == r.(base := r.base[r.slot[n] := base])
    ensures PlacedAt(nodes, Placing(n, base, codes, r, PlaceCodes(nodes, n, base, codes, r.slot[n], r1)))
    decreases |codes|
  {
    if codes != [] {
      var k := |codes| - 1;
      assert codes == codes[..k] + [codes[k]];
      PlacedAll(nodes, n, base, codes[..k], r, r1);
      var r2 := PlaceCodes(nodes, n, base, codes[..k], r.slot[n], r1);
      hide PlacedAt; hide PlaceCode;
      PlacedOne(nodes, Placing(n, base, codes[..k], r, r2), codes[k]);
    }
  }

  // Placing keeps the allocator sound.
  lemma {:induction false} PlaceCodesSound(nodes: seq<Node>, n: nat, base: int, codes: seq<nat>, owner: nat, r: Run,
                                           hole: int)
    requires Fitting(nodes, n, base, codes, r) && Sized(nodes, r, hole) && owner > 0
    ensures var r' := PlaceCodes(nodes, n, base, codes, owner, r);
            Sized(nodes, r', hole) && r'.last == r.last && r'.base == r.base && r'.stack == r.stack &&
            r'.s.chain == r.s.chain && r'.s.dense == r.s.dense && r'.s.fails == r.s.fails
    decreases |codes|
  {
    hide Sound;
    if codes != [] {
      var k := |codes| - 1;
      assert codes == codes[..k] + [codes[k]];
      PlaceCodesSound(nodes, n, base, codes[..k], owner, r, hole);
      var r' := PlaceCodes(nodes, n, base, codes[..k], owner, r);
      Taken(r'.s, r'.last, r'.top, hole, base + codes[k], owner);
    }
  }

  // ---------- Finding a base and placing there ----------

  ghost predicate KidsReady(nodes: seq<Node>, n: nat, codes: seq<nat>, r: Run) {
    n < |nodes| && Sized(nodes, r, 0) && GoodCodes(codes) && CodesKnown(nodes, n, codes) &&
    ChildrenInside(nodes, n) && r.slot[n] >= 1
  }

  ghost function BaseFor(nodes: seq<Node>, n: nat, codes: seq<nat>, r: Run): Choice
    requires KidsReady(nodes, n, codes, r)
  {
    FindBase(r.s, r.last, r.top, codes)
  }

  // The arrays r after growing for the sake of a choice.
  function Widened(r: Run, c: Choice): Run
    requires |r.base| <= |c.s.check| && |r.output| <= |c.s.check|
  {
    r.(s := c.s, last := c.last, base := Resize(r.base, |c.s.check|, 0), output := Resize(r.output, |c.s.check|, 0))
  }

  // What a choice of a base guarantees.
  ghost predicate ChoiceOk(r: Run, n: nat, codes: seq<nat>, c: Choice)
    requires n < |r.slot| && codes != []
  {
    |r.base| == |r.output| == |r.s.check| <= |c.s.check| == |c.s.used| * BLOCK && r.slot[n] < |r.s.check| &&
    Sound(c.s, c.last, r.top, c.base + MinCode(codes)) && Fits(c.s.check, c.base, codes) &&
    Extends(r.s.check, c.s.check)
  }

  lemma ChoiceFits(nodes: seq<Node>, n: nat, codes: seq<nat>, r: Run)
    requires KidsReady(nodes, n, codes, r)
    ensures codes != [] && |r.slot| == |nodes| && ChoiceOk(r, n, codes, BaseFor(nodes, n, codes, r))
    ensures var c := BaseFor(nodes, n, codes, r);
            |r.base| <= |c.s.check| && |r.output| <= |c.s.check| && r.slot[n] < |c.s.check| &&
            Fitting(nodes, n, c.base, codes, Based(r, n, c))
  {
    hide CodesKnown; hide ChildrenInside;
    var c := BaseFor(nodes, n, codes, r);
    SizesOf(c.s, c.last, r.top, c.base + MinCode(codes));
    hide Sound; hide GoodCodes; hide FindBase;
    forall i | 0 <= i < |codes| ensures 0 <= c.base + codes[i] < |c.s.check| {
      assert EmptyAt(c.s.check, c.base + codes[i]);
    }
  }

  lemma BasedSized(nodes: seq<Node>, n: nat, codes: seq<nat>, r: Run, c: Choice)
    requires n < |r.slot| == |nodes| && codes != [] && ChoiceOk(r, n, codes, c) && Sized(nodes, r, 0)
    ensures Sized(nodes, Based(r, n, c), c.base + MinCode(codes)) && Grew(r, Widened(r, c))
  {
    hide Sound; hide Fits;
  }

  // The children of n, for the given codes, are placed at the base the allocator finds.
  ghost function PlaceKids(nodes: seq<Node>, n: nat, codes: seq<nat>, r: Run): Run
    requires KidsReady(nodes, n, codes, r)
  {
    ChoiceFits(nodes, n, codes, r);
    var c := BaseFor(nodes, n, codes, r);
    PlaceCodes(nodes, n, c.base, codes, r.slot[n], Based(r, n, c))
  }

  // The event of placing the children of n, from the widened arrays on.
  ghost function KidsPlacing(nodes: seq<Node>, n: nat, codes: seq<nat>, r: Run): Placing
    requires KidsReady(nodes, n, codes, r)
  {
    ChoiceFits(nodes, n, codes, r);
    var c := BaseFor(nodes, n, codes, r);
    Placing(n, c.base, codes, Widened(r, c), PlaceKids(nodes, n, codes, r))
  }

  lemma KidsPlaced(nodes: seq<Node>, n: nat, codes: seq<nat>, r: Run)
    requires KidsReady(nodes, n, codes, r)
    ensures var g := KidsPlacing(nodes, n, codes, r);
            g.n == n && g.codes == codes && g.r' == PlaceKids(nodes, n, codes, r) && PlacedAt(nodes, g) &&
            Fits(g.r.s.check, g.base, codes) && Grew(r, g.r)
  {
    ChoiceFits(nodes, n, codes, r);
    var c := BaseFor(nodes, n, codes, r);
    BasedSized(nodes, n, codes, r, c);
    hide FindBase; hide Sound; hide GoodCodes; hide PlaceCodes; hide PlacedAt; hide CodesKnown; hide Fitting;
    hide ChildrenInside; hide Extends; hide EmptyAt; hide Fits; hide Grew;
    PlacedAll(nodes, n, c.base, codes, Widened(r, c), Based(r, n, c));
  }

  // Afterwards the allocator is sound again.
  lemma KidsSound(nodes: seq<Node>, n: nat, codes: seq<nat>, r: Run)
    requires KidsReady(nodes, n, codes, r)
    ensures var r' := PlaceKids(nodes, n, codes, r);
            Sized(nodes, r', 0) && r'.stack == r.stack && |r.s.check| <= |r'.s.check|
  {
    hide FindBase; hide Sound; hide GoodCodes; hide PlaceCodes; hide PlacedAt; hide CodesKnown; hide Fitting;
    hide ChildrenInside; hide Extends; hide EmptyAt; hide Fits; hide Grew;
    ChoiceFits(nodes, n, codes, r);
    var c := BaseFor(nodes, n, codes, r);
    BasedSized(nodes, n, codes, r, c);
    PlaceCodesSound(nodes, n, c.base, codes, r.slot[n], Based(r, n, c), c.base + MinCode(codes));
    HoleTaken(nodes, n, codes, r);
    var r' := PlaceKids(nodes, n, codes, r);
    HoleFilled(r'.s, r'.last, r'.top, c.base + MinCode(codes));
  }

  lemma HoleTaken(nodes: seq<Node>, n: nat, codes: seq<nat>, r: Run)
    requires KidsReady(nodes, n, codes, r)
    ensures var r', hole := PlaceKids(nodes, n, codes, r), BaseFor(nodes, n, codes, r).base + MinCode(codes);
            |r.s.check| <= |r'.s.check| && 0 < hole < |r'.s.check| && r'.s.check[hole] != 0
  {
    hide FindBase; hide Sound; hide GoodCodes; hide PlaceCodes; hide PlacedAt; hide CodesKnown; hide Fitting;
    hide ChildrenInside; hide Extends; hide EmptyAt; hide Fits;
    ChoiceFits(nodes, n, codes, r);
    KidsPlaced(nodes, n, codes, r);
    var c := BaseFor(nodes, n, codes, r);
    MinFits(c.s.check, c.base, codes);
    CheckView(nodes, KidsPlacing(nodes, n, codes, r), c.base + MinCode(codes));
  }

  lemma MinFits(check: seq<nat>, base: int, codes: seq<nat>)
    requires codes != [] && Fits(check, base, codes)
    ensures MinCode(codes) in codes && EmptyAt(check, base + MinCode(codes)) && 0 < base + MinCode(codes) < |check|
  {
    var i :| 0 <= i < |codes| && codes[i] == MinCode(codes);
    assert EmptyAt(check, base + codes[i]);
  }

  // The arrays have only become longer.
  ghost predicate Grew(r: Run, w: Run) {
    w == r.(s := w.s, last := w.last, base := w.base, output := w.output) && Extends(r.s.check, w.s.check) &&
    Extends(r.base, w.base) && Extends(r.output, w.output) && |w.base| == |w.output| == |w.s.check|
  }

  // ---------- Slots ----------

  // A node has a slot once its parent's children are placed.
  ghost predicate Slotted(t: Tree, placed: set<nat>, m: nat)
    requires m < |t.parents|
  {
    m == 0 || t.parents[m] in placed
  }

  ghost predicate SlotOk(t: Tree, placed: set<nat>, r: Run, m: nat)
    requires m < |t.nodes| == |t.parents| == |r.slot| && |r.base| == |r.s.check| == |r.output|
  {
    1 <= r.slot[m] < |r.s.check| && r.s.check[r.slot[m]] != 0 &&
    (m == 0 ==> r.slot[m] == 1 && r.s.check[1] == 1 && r.output[1] == 0) &&
    (m != 0 ==> t.parents[m] < m && r.s.check[r.slot[m]] == r.slot[t.parents[m]] < |r.s.check| &&
                r.base[r.slot[t.parents[m]]] + t.nodes[m].code == r.slot[m] &&
                r.output[r.slot[m]] == t.nodes[m].matched) &&
    (m !in placed ==> r.base[r.slot[m]] == 0)
  }

  // What holds of the arrays as long as no children are placed twice.
  ghost predicate SlotsOk(t: Tree, placed: set<nat>, r: Run) {
    |t.nodes| == |t.parents| == |r.slot| > 0 && |r.base| == |r.s.check| == |r.output| > 0 && r.s.check[0] == 0 &&
    (forall m :: 0 <= m < |t.nodes| ==>
      if Slotted(t, placed, m) then SlotOk(t, placed, r, m) else r.slot[m] == 0) &&
    (forall m, k :: 0 <= m < k < |t.nodes| ==> Apart(r.slot, m, k)) &&
    (forall x :: 0 <= x < |r.s.check| && r.s.check[x] != 0 ==> x in r.slot) &&
    forall x :: 0 <= x < |r.s.check| && r.s.check[x] == 0 ==> r.base[x] == 0
  }

  ghost predicate Apart(slot: seq<nat>, m: nat, k: nat)
    requires m < |slot| && k < |slot|
  {
    slot[m] == slot[k] ==> slot[m] == 0
  }

  // All codes of the children, each once.
  ghost predicate Orders(order: seq<nat>, keys: set<nat>) {
    |order| == |keys| && (forall j, k :: 0 <= j < k < |order| ==> order[j] != order[k]) &&
    forall c :: c in keys <==> c in order
  }

  // The event places all children of a node that has a slot and no placed children yet.
  ghost predicate FreshPlacing(t: Tree, placed: set<nat>, g: Placing) {
    TreeOk(t) && SlotsOk(t, placed, g.r) && g.n < |t.nodes| && g.n !in placed && Slotted(t, placed, g.n) &&
    Orders(g.codes, t.nodes[g.n].children.Keys) && CodesKnown(t.nodes, g.n, g.codes) &&
    Fits(g.r.s.check, g.base, g.codes) && PlacedAt(t.nodes, g)
  }

  lemma SlotsStart(t: Tree, r: Run)
    requires TreeOk(t) && |r.base| == |r.s.check| == |r.output| > 1 && |r.slot| == |t.nodes|
    requires forall x :: 0 <= x < |r.s.check| ==>
             r.base[x] == r.output[x] == 0 && r.s.check[x] == if x == 1 then 1 else 0
    requires forall m :: 0 <= m < |r.slot| ==> r.slot[m] == if m == 0 then 1 else 0
    ensures SlotsOk(t, {}, r)
  {
    assert r.slot[0] == 1;
  }

  // The parts of the predicates, one node or slot at a time.
  lemma SlotView(t: Tree, placed: set<nat>, r: Run, m: nat)
    requires SlotsOk(t, placed, r) && m < |t.nodes|
    ensures |t.nodes| == |t.parents| == |r.slot| && |r.base| == |r.s.check| == |r.output| > 0 && r.s.check[0] == 0
    ensures if Slotted(t, placed, m) then SlotOk(t, placed, r, m) && r.slot[m] != 0 else r.slot[m] == 0
  {}

  lemma ApartView(t: Tree, placed: set<nat>, r: Run, m: nat, k: nat)
    requires SlotsOk(t, placed, r) && m < |t.nodes| == |r.slot| && k < |t.nodes| && m != k && r.slot[m] == r.slot[k]
    ensures r.slot[m] == 0
  {
    assert m < k ==> Apart(r.slot, m, k);
    assert k < m ==> Apart(r.slot, k, m);
  }

  lemma PlacedView(nodes: seq<Node>, g: Placing, m: nat)
    requires g.n < |nodes| && CodesKnown(nodes, g.n, g.codes) && PlacedAt(nodes, g) && m < |nodes|
    ensures |g.r.slot| == |g.r'.slot| == |nodes| && g.r.slot[g.n] < |g.r.base| == |g.r.s.check| == |g.r.output|
    ensures |g.r.base| == |g.r'.base| == |g.r'.s.check| == |g.r'.output|
    ensures g.r'.slot[m] == if IsChild(nodes, g.n, g.codes, m) then g.base + nodes[m].code else g.r.slot[m]
    ensures g.r'.base == g.r.base[g.r.slot[g.n] := g.base]
  {}

  lemma CheckView(nodes: seq<Node>, g: Placing, x: nat)
    requires g.n < |nodes| && CodesKnown(nodes, g.n, g.codes) && PlacedAt(nodes, g) && x < |g.r.s.check|
    ensures |g.r.s.check| == |g.r.output| == |g.r'.s.check| == |g.r'.output|
    ensures g.r.slot[g.n] < |g.r.base| && |g.r.slot| == |nodes|
    ensures g.r'.s.check[x] == if x - g.base in g.codes then g.r.slot[g.n] else g.r.s.check[x]
    ensures OutputAt(nodes, g, x)
  {
    assert OutputAt(nodes, g, x);
  }

  lemma FitsView(check: seq<nat>, base: int, codes: seq<nat>, c: nat)
    requires Fits(check, base, codes) && c in codes
    ensures EmptyAt(check, base + c)
  {
    var j :| 0 <= j < |codes| && codes[j] == c;
    assert EmptyAt(check, base + codes[j]);
  }

  lemma CodeView(nodes: seq<Node>, n: nat, codes: seq<nat>, c: nat)
    requires n < |nodes| && Orders(codes, nodes[n].children.Keys)
    ensures c in nodes[n].children <==> c in codes
  {
    assert c in nodes[n].children <==> c in nodes[n].children.Keys;
  }

  lemma SlotInside(t: Tree, placed: set<nat>, r: Run, m: nat)
    requires m < |t.nodes| == |t.parents| == |r.slot| && |r.base| == |r.s.check| == |r.output|
    requires SlotOk(t, placed, r, m)
    ensures 1 <= r.slot[m] < |r.s.check| && r.s.check[r.slot[m]] != 0
  {}

  lemma EmptyBase(t: Tree, placed: set<nat>, r: Run, x: nat)
    requires SlotsOk(t, placed, r) && x < |r.s.check| && r.s.check[x] == 0
    ensures x < |r.base| && r.base[x] == 0
  {}

  lemma Owner(t: Tree, placed: set<nat>, r: Run, x: nat) returns (m: nat)
    requires SlotsOk(t, placed, r) && x < |r.s.check| && r.s.check[x] != 0
    ensures m < |t.nodes| == |r.slot| == |t.parents| && r.slot[m] == x && x != 0 && Slotted(t, placed, m)
  {
    m :| 0 <= m < |r.slot| && r.slot[m] == x;
  }

  lemma ParentKnown(t: Tree, m: nat)
    requires TreeOk(t) && 0 < m < |t.nodes|
    ensures |t.parents| == |t.nodes| && t.parents[m] < m
    ensures var p, c := t.parents[m], t.nodes[m].code; c in t.nodes[p].children && t.nodes[p].children[c] == m
  {
    assert ParentOk(t.nodes, t.parents[m], m);
  }

  lemma ChildKnown(t: Tree, n: nat, c: nat)
    requires TreeOk(t) && n < |t.nodes| && c in t.nodes[n].children
    ensures |t.nodes| == |t.paths| == |t.parents|
    ensures var m := t.nodes[n].children[c];
            n < m < |t.nodes| && 1 <= c <= MAX_CODE && t.paths[m] == t.paths[n] + [c] &&
            t.nodes[m].code == c && t.parents[m] == n
  {
    ChildPath(t.nodes, t.paths, t.parents, n, c);
  }

  // Growing the arrays changes nothing for the nodes.
  lemma SlotsExtended(t: Tree, placed: set<nat>, r: Run, w: Run)
    requires SlotsOk(t, placed, r) && Grew(r, w)
    ensures SlotsOk(t, placed, w)
  {
    forall m | 0 <= m < |t.nodes|
      ensures if Slotted(t, placed, m) then SlotOk(t, placed, w, m) else w.slot[m] == 0
    {
      if Slotted(t, placed, m) {
        assert SlotOk(t, placed, r, m);
        if m != 0 { assert r.slot[t.parents[m]] < |r.base|; }
      }
    }
  }

  // Placing the children of a node whose children have no slots yet.
  lemma SlotsPlace(t: Tree, placed: set<nat>, g: Placing)
    requires FreshPlacing(t, placed, g)
    ensures SlotsOk(t, placed + {g.n}, g.r')
  {
    hide TreeOk; hide PlacedAt; hide Fits; hide Orders; hide CodesKnown; hide SlotOk; hide OutputAt;
    var placed' := placed + {g.n};
    var r, r' := g.r, g.r';
    PlacedView(t.nodes, g, g.n);
    forall m | 0 <= m < |t.nodes|
      ensures if Slotted(t, placed', m) then SlotOk(t, placed', r', m) else r'.slot[m] == 0
    {
      SlotAfter(t, placed, g, m);
    }
    SlotsApart(t, placed, g);
    forall x | 0 <= x < |r'.s.check| && r'.s.check[x] != 0 ensures x in r'.slot {
      UsedAfter(t, placed, g, x);
    }
    forall x | 0 <= x < |r'.s.check| ensures r'.s.check[x] == 0 ==> r'.base[x] == 0 {
      EmptyAfter(t, placed, g, x);
    }
    ZeroAfter(t.nodes, g);
  }

  lemma ZeroAfter(nodes: seq<Node>, g: Placing)
    requires g.n < |nodes| && CodesKnown(nodes, g.n, g.codes) && PlacedAt(nodes, g)
    requires Fits(g.r.s.check, g.base, g.codes) && |g.r.s.check| > 0 && g.r.s.check[0] == 0
    ensures |g.r'.s.check| > 0 && g.r'.s.check[0] == 0
  {
    CheckView(nodes, g, 0);
    assert forall j :: 0 <= j < |g.codes| ==> EmptyAt(g.r.s.check, g.base + g.codes[j]);
  }

  lemma EmptyAfter(t: Tree, placed: set<nat>, g: Placing, x: nat)
    requires FreshPlacing(t, placed, g) && x < |g.r'.s.check| == |g.r.s.check| == |g.r.base| == |g.r'.base|
    ensures g.r'.s.check[x] == 0 ==> g.r'.base[x] == 0
  {
    hide TreeOk; hide SlotsOk; hide PlacedAt; hide Fits; hide Orders; hide CodesKnown; hide SlotOk; hide OutputAt;
    PlacedView(t.nodes, g, g.n);
    SlotView(t, placed, g.r, g.n);
    CheckView(t.nodes, g, x);
    SlotInside(t, placed, g.r, g.n);
    if g.r.s.check[x] == 0 { EmptyBase(t, placed, g.r, x); }
  }

  lemma SlotsApart(t: Tree, placed: set<nat>, g: Placing)
    requires FreshPlacing(t, placed, g) && |g.r'.slot| == |t.nodes|
    ensures forall m, k :: 0 <= m < k < |t.nodes| ==> Apart(g.r'.slot, m, k)
  {
    hide TreeOk; hide SlotsOk; hide PlacedAt; hide Fits; hide Orders; hide CodesKnown; hide SlotOk; hide OutputAt;
    forall m, k | 0 <= m < k < |t.nodes| ensures Apart(g.r'.slot, m, k) {
      SlotView(t, placed, g.r, m);
      NewSlot(t, placed, g, m);
      NewSlot(t, placed, g, k);
      if g.r.slot[m] == g.r.slot[k] { ApartView(t, placed, g.r, m, k); }
    }
  }

  // The children of n move to empty slots, and every other node stays where it is.
  lemma NewSlot(t: Tree, placed: set<nat>, g: Placing, m: nat)
    requires FreshPlacing(t, placed, g) && m < |t.nodes|
    ensures |g.r.slot| == |g.r'.slot| == |t.nodes| == |t.parents|
    ensures var r, r' := g.r, g.r';
            if m != 0 && t.parents[m] == g.n then
              var c := t.nodes[m].code;
              c in t.nodes[g.n].children && t.nodes[g.n].children[c] == m && c in g.codes &&
              r'.slot[m] == g.base + c && EmptyAt(r.s.check, r'.slot[m])
            else
              r'.slot[m] == r.slot[m] &&
              (r.slot[m] != 0 ==> Slotted(t, placed, m) && r.slot[m] < |r.s.check| && r.s.check[r.slot[m]] != 0)
  {
    hide TreeOk; hide SlotsOk; hide PlacedAt; hide Fits; hide Orders; hide CodesKnown; hide SlotOk; hide OutputAt;
    hide EmptyAt;
    SlotView(t, placed, g.r, m);
    PlacedView(t.nodes, g, m);
    if m != 0 {
      ParentKnown(t, m);
      CodeView(t.nodes, g.n, g.codes, t.nodes[m].code);
    }
    if IsChild(t.nodes, g.n, g.codes, m) {
      ChildKnown(t, g.n, t.nodes[m].code);
      FitsView(g.r.s.check, g.base, g.codes, t.nodes[m].code);
    } else if Slotted(t, placed, m) {
      SlotInside(t, placed, g.r, m);
    }
  }

  lemma SlotAfter(t: Tree, placed: set<nat>, g: Placing, m: nat)
    requires FreshPlacing(t, placed, g) && m < |t.nodes|
    ensures |g.r'.slot| == |t.nodes| == |t.parents| && |g.r'.base| == |g.r'.s.check| == |g.r'.output|
    ensures if Slotted(t, placed + {g.n}, m) then SlotOk(t, placed + {g.n}, g.r', m) else g.r'.slot[m] == 0
  {
    hide TreeOk; hide SlotsOk; hide PlacedAt; hide Fits; hide Orders; hide CodesKnown; hide SlotOk; hide OutputAt;
    hide EmptyAt;
    NewSlot(t, placed, g, m);
    PlacedView(t.nodes, g, m);
    SlotView(t, placed, g.r, m);
    if m != 0 && t.parents[m] == g.n {
      ChildSlotAfter(t, placed, g, m);
    } else if Slotted(t, placed, m) {
      OldSlotAfter(t, placed, g, m);
    }
  }

  lemma ChildSlotAfter(t: Tree, placed: set<nat>, g: Placing, m: nat)
    requires FreshPlacing(t, placed, g) && 0 < m < |t.nodes| == |t.parents| && t.parents[m] == g.n
    requires |g.r'.slot| == |t.nodes| && |g.r'.base| == |g.r'.s.check| == |g.r'.output|
    ensures SlotOk(t, placed + {g.n}, g.r', m)
  {
    hide TreeOk; hide SlotsOk; hide PlacedAt; hide Fits; hide Orders; hide CodesKnown;
    NewSlot(t, placed, g, m);
    NewSlot(t, placed, g, g.n);
    PlacedView(t.nodes, g, m);
    SlotView(t, placed, g.r, g.n);
    ParentKnown(t, m);
    CheckView(t.nodes, g, g.r'.slot[m]);
    EmptyBase(t, placed, g.r, g.r'.slot[m]);
  }

  lemma OldSlotAfter(t: Tree, placed: set<nat>, g: Placing, m: nat)
    requires FreshPlacing(t, placed, g) && m < |t.nodes| == |t.parents| && Slotted(t, placed, m)
    requires !(m != 0 && t.parents[m] == g.n)
    requires |g.r'.slot| == |t.nodes| && |g.r'.base| == |g.r'.s.check| == |g.r'.output|
    ensures SlotOk(t, placed + {g.n}, g.r', m)
  {
    hide TreeOk; hide SlotsOk; hide PlacedAt; hide Fits; hide Orders; hide CodesKnown; hide OutputAt;
    hide EmptyAt;
    NewSlot(t, placed, g, m);
    PlacedView(t.nodes, g, m);
    SlotView(t, placed, g.r, g.n);
    SlotView(t, placed, g.r, m);
    StaysPut(t.nodes, g, g.r.slot[m]);
    if m != g.n && g.r.slot[m] == g.r.slot[g.n] { ApartView(t, placed, g.r, m, g.n); }
    if m != 0 {
      var p := t.parents[m];
      SlotView(t, placed, g.r, p);
      NewSlot(t, placed, g, p);
      if p != g.n && g.r.slot[p] == g.r.slot[g.n] { ApartView(t, placed, g.r, p, g.n); }
    }
  }

  // A slot in use keeps its check and output.
  lemma StaysPut(nodes: seq<Node>, g: Placing, x: nat)
    requires g.n < |nodes| && CodesKnown(nodes, g.n, g.codes)
    requires Fits(g.r.s.check, g.base, g.codes) && PlacedAt(nodes, g)
    requires x < |g.r.s.check| && g.r.s.check[x] != 0
    ensures |g.r.s.check| == |g.r.output| == |g.r'.s.check| == |g.r'.output|
    ensures g.r'.s.check[x] == g.r.s.check[x] && g.r'.output[x] == g.r.output[x]
  {
    CheckView(nodes, g, x);
    assert forall j :: 0 <= j < |g.codes| ==> EmptyAt(g.r.s.check, g.base + g.codes[j]);
  }

  lemma UsedAfter(t: Tree, placed: set<nat>, g: Placing, x: nat)
    requires FreshPlacing(t, placed, g) && x < |g.r'.s.check| && g.r'.s.check[x] != 0
    ensures x in g.r'.slot
  {
    hide TreeOk; hide SlotsOk; hide PlacedAt; hide Fits; hide Orders; hide CodesKnown; hide SlotOk; hide OutputAt;
    hide EmptyAt;
    PlacedView(t.nodes, g, g.n);
    CheckView(t.nodes, g, x);
    if x - g.base in g.codes {
      var c: nat := x - g.base;
      CodeView(t.nodes, g.n, g.codes, c);
      ChildKnown(t, g.n, c);
      NewSlot(t, placed, g, t.nodes[g.n].children[c]);
    } else {
      var m := Owner(t, placed, g.r, x);
      NewSlot(t, placed, g, m);
      assert g.r'.slot[m] == x;
    }
  }

  // Nodes whose children were placed before keep their slots and bases.
  lemma BaseKept(t: Tree, placed: set<nat>, g: Placing, m: nat)
    requires FreshPlacing(t, placed, g) && m < |t.nodes| && m in placed && m < |t.parents| && Slotted(t, placed, m)
    ensures |g.r.slot| == |g.r'.slot| == |t.nodes| && g.r'.slot[m] == g.r.slot[m]
    ensures g.r.slot[m] < |g.r.base| == |g.r'.base| && g.r'.base[g.r.slot[m]] == g.r.base[g.r.slot[m]]
  {
    hide TreeOk; hide SlotsOk; hide PlacedAt; hide Fits; hide Orders; hide CodesKnown; hide SlotOk; hide OutputAt;
    hide EmptyAt;
    NewSlot(t, placed, g, m);
    PlacedView(t.nodes, g, m);
    SlotView(t, placed, g.r, m);
    SlotView(t, placed, g.r, g.n);
    if g.r.slot[m] == g.r.slot[g.n] { ApartView(t, placed, g.r, m, g.n); }
  }

  // ---------- Children placed twice ----------

  // Slot x is used but belongs to no node.
  ghost predicate Stale(r: Run, x: nat) {
    x < |r.s.check| && r.s.check[x] != 0 && x !in r.slot
  }

  // Placing the children of n a second time leaves the old slot of a child behind: the first
  // base was 0, so the old slot is the child's code, and it is never freed.
  lemma StaleBorn(t: Tree, placed: set<nat>, g: Placing, c: nat)
    requires TreeOk(t) && SlotsOk(t, placed, g.r) && g.n < |t.nodes| && g.n in placed
    requires CodesKnown(t.nodes, g.n, g.codes) && c in t.nodes[g.n].children && c in g.codes
    requires |g.r.slot| == |t.nodes| && g.r.slot[g.n] < |g.r.base| && g.r.base[g.r.slot[g.n]] == 0
    requires Fits(g.r.s.check, g.base, g.codes) && PlacedAt(t.nodes, g)
    ensures Stale(g.r', c)
  {
    hide TreeOk; hide SlotsOk; hide PlacedAt; hide Fits; hide CodesKnown; hide OutputAt;
    ChildKnown(t, g.n, c);
    var m := t.nodes[g.n].children[c];
    SlotView(t, placed, g.r, m);
    assert g.r.slot[m] == c;
    PlacedView(t.nodes, g, m);
    StaysPut(t.nodes, g, c);
    forall k | 0 <= k < |g.r'.slot| ensures g.r'.slot[k] != c {
      PlacedView(t.nodes, g, k);
      if IsChild(t.nodes, g.n, g.codes, k) {
        FitsView(g.r.s.check, g.base, g.codes, t.nodes[k].code);
      } else if g.r.slot[k] == c {
        ApartView(t, placed, g.r, k, m);
      }
    }
  }

  lemma StaleKept(nodes: seq<Node>, g: Placing, x: nat)
    requires g.n < |nodes| && CodesKnown(nodes, g.n, g.codes)
    requires Fits(g.r.s.check, g.base, g.codes) && PlacedAt(nodes, g) && Stale(g.r, x)
    ensures Stale(g.r', x)
  {
    hide PlacedAt; hide Fits; hide CodesKnown; hide OutputAt;
    PlacedView(nodes, g, g.n);
    StaysPut(nodes, g, x);
    forall k | 0 <= k < |g.r'.slot| ensures g.r'.slot[k] != x {
      PlacedView(nodes, g, k);
      if IsChild(nodes, g.n, g.codes, k) { FitsView(g.r.s.check, g.base, g.codes, nodes[k].code); }
      assert g.r.slot[k] != x;
    }
  }

  lemma StaleWidened(r: Run, w: Run, x: nat)
    requires Grew(r, w) && Stale(r, x)
    ensures Stale(w, x)
  {}
}
