// The depth-first tour of the placing pass: the order in which children are visited, the stack,
// and what visiting every child once means.
module Tour {
  import opened Utf8
  import opened Automaton
  import opened PatternTrie
  import opened FailLinks
  import opened Allocation
  import opened Placing

  // ---------- The order of visits ----------

  ghost predicate Ascending(codes: seq<nat>) {
    forall i, j :: 0 <= i < j < |codes| ==> codes[i] <= codes[j]
  }

  ghost predicate Distinct(codes: seq<nat>) {
    forall i, j :: 0 <= i < j < |codes| ==> codes[i] != codes[j]
  }

  function InsertCode(codes: seq<nat>, c: nat): (r: seq<nat>)
    ensures multiset(r) == multiset(codes) + multiset{c} && |r| == |codes| + 1
  {
    if codes == [] || c <= codes[0] then [c] + codes
    else
      assert codes == [codes[0]] + codes[1..];
      [codes[0]] + InsertCode(codes[1..], c)
  }

  lemma InCodes(codes: seq<nat>, c: nat)
    ensures c in codes <==> c in multiset(codes)
  {}

  lemma {:induction false} InsertKeeps(codes: seq<nat>, c: nat)
    requires Ascending(codes)
    ensures Ascending(InsertCode(codes, c))
  {
    if codes != [] && c > codes[0] {
      assert codes == [codes[0]] + codes[1..];
      InsertKeeps(codes[1..], c);
      AtFront(codes[0], InsertCode(codes[1..], c), codes[1..], c);
    }
  }

  // A code that is no larger than the others may stand before them.
  lemma AtFront(x: nat, r: seq<nat>, codes: seq<nat>, c: nat)
    requires Ascending(r) && x <= c && multiset(r) == multiset(codes) + multiset{c}
    requires forall i :: 0 <= i < |codes| ==> x <= codes[i]
    ensures Ascending([x] + r)
  {
    forall i | 0 <= i < |r| ensures x <= r[i] {
      InCodes(r, r[i]);
      InCodes(codes, r[i]);
    }
  }

  // The codes of the children are pushed after those that are there, and everything is sorted.
  ghost function AddAll(order: seq<nat>, keys: set<nat>): (r: seq<nat>)
    ensures multiset(r) == multiset(order) + multiset(keys) && |r| == |order| + |keys|
    decreases |keys|
  {
    if keys == {} then order
    else
      var c :| c in keys;
      assert multiset(keys) == multiset(keys - {c}) + multiset{c};
      InsertCode(AddAll(order, keys - {c}), c)
  }

  lemma {:induction false} AddAllAscending(order: seq<nat>, keys: set<nat>)
    requires Ascending(order)
    ensures Ascending(AddAll(order, keys))
    decreases |keys|
  {
    if keys != {} {
      var c :| c in keys && AddAll(order, keys) == InsertCode(AddAll(order, keys - {c}), c);
      AddAllAscending(order, keys - {c});
      InsertKeeps(AddAll(order, keys - {c}), c);
    }
  }

  // Sorting gives one result.
  lemma {:induction false} AscendingUnique(a: seq<nat>, b: seq<nat>)
    requires Ascending(a) && Ascending(b) && multiset(a) == multiset(b)
    ensures a == b
    decreases |a|
  {
    assert |multiset(a)| == |a| && |multiset(b)| == |b|;
    if a != [] {
      HeadLeast(a, b);
      HeadLeast(b, a);
      assert a == [a[0]] + a[1..] && b == [b[0]] + b[1..];
      SameTails(a, b);
      hide Ascending;
      AscendingUnique(a[1..], b[1..]);
    }
  }

  lemma HeadLeast(a: seq<nat>, b: seq<nat>)
    requires Ascending(a) && multiset(a) == multiset(b) && a != [] && b != []
    ensures a[0] <= b[0]
  {
    InCodes(a, b[0]);
    InCodes(b, b[0]);
  }

  lemma SameTails(a: seq<nat>, b: seq<nat>)
    requires a != [] && b != [] && a[0] == b[0] && multiset(a) == multiset(b) && Ascending(a) && Ascending(b)
    ensures multiset(a[1..]) == multiset(b[1..]) && Ascending(a[1..]) && Ascending(b[1..])
  {
    WithoutHead(a);
    WithoutHead(b);
  }

  lemma WithoutHead(a: seq<nat>)
    requires a != [] && Ascending(a)
    ensures multiset(a[1..]) == multiset(a) - multiset{a[0]} && Ascending(a[1..])
  {
    assert a == [a[0]] + a[1..];
  }

  // The codes of a node's children in ascending order.
  ghost function SortedCodes(keys: set<nat>): seq<nat> {
    AddAll([], keys)
  }

  lemma AddAllIn(order: seq<nat>, keys: set<nat>, c: nat)
    ensures c in AddAll(order, keys) <==> c in order || c in keys
  {
    InCodes(AddAll(order, keys), c);
    InCodes(order, c);
  }

  lemma SortedOrders(keys: set<nat>)
    ensures Orders(SortedCodes(keys), keys) && Ascending(SortedCodes(keys))
  {
    var r := SortedCodes(keys);
    AddAllAscending([], keys);
    forall c ensures c in keys <==> c in r { AddAllIn([], keys, c); }
    forall i, j | 0 <= i < j < |r| ensures r[i] != r[j] {
      if r[i] == r[j] { TwiceThere(r, i, j); }
    }
  }

  lemma TwiceThere(r: seq<nat>, i: nat, j: nat)
    requires i < j < |r| && r[i] == r[j]
    ensures multiset(r)[r[i]] >= 2
  {
    assert r == r[..i] + [r[i]] + r[i + 1..j] + [r[j]] + r[j + 1..];
  }

  // An ascending list of the codes is the sorted one.
  lemma SortedIs(keys: set<nat>, codes: seq<nat>)
    requires Ascending(codes) && Orders(codes, keys)
    ensures SortedCodes(keys) == codes
  {
    SortedOrders(keys);
    forall c: nat ensures multiset(codes)[c] == multiset(keys)[c] {
      InCodes(codes, c);
      OnceEach(codes, c);
    }
    AscendingUnique(SortedCodes(keys), codes);
  }

  lemma {:induction false} OnceEach(codes: seq<nat>, c: nat)
    requires forall i, j :: 0 <= i < j < |codes| ==> codes[i] != codes[j]
    ensures multiset(codes)[c] <= 1
  {
    if codes != [] {
      assert codes == [codes[0]] + codes[1..];
      OnceEach(codes[1..], c);
      InCodes(codes[1..], codes[0]);
    }
  }

  // Adds the codes of the children one by one, keeping the order sorted.
  method OrderChildren(children: map<nat, nat>, order: seq<nat>) returns (order': seq<nat>)
    requires Ascending(order)
    ensures order' == AddAll(order, children.Keys)
  {
    order' := order;
    var rest := children.Keys;
    while rest != {}
      invariant rest <= children.Keys && Ascending(order')
      invariant multiset(order') == multiset(order) + multiset(children.Keys - rest)
    {
      var c :| c in rest;
      InsertKeeps(order', c);
      order' := InsertCode(order', c);
      assert multiset(children.Keys - (rest - {c})) == multiset(children.Keys - rest) + multiset{c} by {
        assert children.Keys - (rest - {c}) == (children.Keys - rest) + {c};
      }
      rest := rest - {c};
    }
    assert children.Keys - rest == children.Keys;
    AddAllAscending(order, children.Keys);
    AscendingUnique(order', AddAll(order, children.Keys));
  }

  // ---------- The stack in every run ----------

  // The stack is a path from the root, and an entry whose children have been placed lists them all.
  ghost predicate StackOk(t: Tree, stack: seq<Entry>) {
    |t.nodes| == |t.paths| && forall i :: 0 <= i < |stack| ==> EntryOk(t, stack[i], i)
  }

  ghost predicate EntryOk(t: Tree, e: Entry, i: nat)
    requires |t.nodes| == |t.paths|
  {
    e.node < |t.nodes| && |t.paths[e.node]| == i && e.next <= |t.nodes[e.node].children| &&
    CodesKnown(t.nodes, e.node, e.order) && Ascending(e.order) &&
    (e.order != [] ==> |e.order| >= |t.nodes[e.node].children| && e.next > 0)
  }

  lemma StackTop(t: Tree, stack: seq<Entry>)
    requires StackOk(t, stack) && stack != []
    ensures |t.nodes| == |t.paths| && EntryOk(t, stack[|stack| - 1], |stack| - 1)
  {}

  lemma StackPop(t: Tree, stack: seq<Entry>)
    requires StackOk(t, stack) && stack != []
    ensures StackOk(t, stack[..|stack| - 1])
  {
    var lower := stack[..|stack| - 1];
    forall i | 0 <= i < |lower| ensures EntryOk(t, lower[i], i) {
      assert EntryOk(t, stack[i], i);
    }
  }

  // The entry e moves on to its next child m, after its order has become what it is now.
  ghost predicate MovesOn(t: Tree, stack: seq<Entry>, e: Entry, m: nat) {
    stack != [] && e.node == stack[|stack| - 1].node && e.next == stack[|stack| - 1].next &&
    e.node < |t.nodes| && e.next < |t.nodes[e.node].children| && e.next < |e.order| &&
    e.order[e.next] in t.nodes[e.node].children && m == t.nodes[e.node].children[e.order[e.next]]
  }

  // The stack after e has moved on to m.
  function Pushed(stack: seq<Entry>, e: Entry, m: nat): seq<Entry>
    requires stack != []
  {
    stack[..|stack| - 1] + [e.(next := e.next + 1), Entry(m, 0, [])]
  }

  lemma StackPush(t: Tree, stack: seq<Entry>, e: Entry, m: nat)
    requires TreeOk(t) && StackOk(t, stack) && MovesOn(t, stack, e, m)
    requires CodesKnown(t.nodes, e.node, e.order) && Ascending(e.order) && |e.order| >= |t.nodes[e.node].children|
    ensures StackOk(t, Pushed(stack, e, m))
  {
    hide TreeOk;
    var stack' := Pushed(stack, e, m);
    ChildKnown(t, e.node, e.order[e.next]);
    assert EntryOk(t, stack[|stack| - 1], |stack| - 1);
    forall i | 0 <= i < |stack'| ensures EntryOk(t, stack'[i], i) {
      if i < |stack| - 1 { assert EntryOk(t, stack[i], i); }
    }
  }

  // A node's depth is at most its number, so the stack is never higher than the trie has nodes.
  lemma {:induction false} DepthAtMost(t: Tree, m: nat)
    requires TreeOk(t) && m < |t.nodes|
    ensures |t.paths| == |t.nodes| && |t.paths[m]| <= m
  {
    if m > 0 {
      ParentKnown(t, m);
      ChildKnown(t, t.parents[m], t.nodes[m].code);
      DepthAtMost(t, t.parents[m]);
    }
  }

  lemma StackHeight(t: Tree, stack: seq<Entry>)
    requires TreeOk(t) && StackOk(t, stack)
    ensures |stack| <= |t.nodes|
  {
    if stack != [] {
      StackTop(t, stack);
      DepthAtMost(t, stack[|stack| - 1].node);
    }
  }

  // ---------- Steps left ----------

  // Visits that are left below a stack entry with h levels under it, each costing at most Visit(h).
  function Visit(width: nat, h: nat): nat {
    if h == 0 then 1 else 2 + width * Visit(width, h - 1)
  }

  ghost function Rest(t: Tree, e: Entry): nat
    requires e.node < |t.nodes| && e.next <= |t.nodes[e.node].children|
  {
    |t.nodes[e.node].children| - e.next
  }

  // The largest number of children of a node.
  ghost function Widest(nodes: seq<Node>): (w: nat)
    ensures forall n :: 0 <= n < |nodes| ==> |nodes[n].children| <= w
  {
    if nodes == [] then 0 else Max(|nodes[0].children|, Widest(nodes[1..]))
  }

  // A bound on the pops and pushes to come.
  ghost function Left(t: Tree, stack: seq<Entry>, height: nat): nat
    requires StackOk(t, stack) && |stack| <= height
  {
    if stack == [] then 0
    else
      var top := |stack| - 1;
      assert EntryOk(t, stack[top], top);
      Left(t, stack[..top], height) + 1 + Rest(t, stack[top]) * Visit(Widest(t.nodes), height - |stack|)
  }

  lemma LeftPop(t: Tree, stack: seq<Entry>, height: nat)
    requires 0 < |stack| <= height && StackOk(t, stack) && StackOk(t, stack[..|stack| - 1])
    ensures Left(t, stack[..|stack| - 1], height) < Left(t, stack, height)
  {
    StackTop(t, stack);
    AtLeast(Rest(t, stack[|stack| - 1]), Visit(Widest(t.nodes), height - |stack|));
  }

  lemma AtLeast(a: nat, b: nat)
    ensures a * b >= 0
  {}

  lemma LeftPush(t: Tree, stack: seq<Entry>, e: Entry, m: nat, height: nat)
    requires StackOk(t, stack) && MovesOn(t, stack, e, m) && m < |t.nodes|
    requires StackOk(t, Pushed(stack, e, m)) && |stack| + 1 <= height
    ensures Left(t, Pushed(stack, e, m), height) < Left(t, stack, height)
  {
    hide StackOk;
    var stack', h := Pushed(stack, e, m), height - |stack|;
    StackTop(t, stack);
    StackTop(t, stack');
    StackPop(t, stack');
    var middle := stack'[..|stack|];
    assert middle == stack[..|stack| - 1] + [e.(next := e.next + 1)];
    StackTop(t, middle);
    StackPop(t, stack);
    assert middle[..|stack| - 1] == stack[..|stack| - 1];
    assert stack'[|stack|] == Entry(m, 0, []);
    assert Rest(t, stack[|stack| - 1]) == Rest(t, middle[|stack| - 1]) + 1;
    OneVisit(Rest(t, middle[|stack| - 1]), Rest(t, Entry(m, 0, [])), Widest(t.nodes), h);
  }

  lemma OneVisit(rest: nat, children: nat, width: nat, h: nat)
    requires children <= width && h > 0
    ensures rest * Visit(width, h) + 1 + children * Visit(width, h - 1) < (rest + 1) * Visit(width, h)
  {
    var v := Visit(width, h - 1);
    assert children * v <= width * v;
  }

  // ---------- Every child once ----------

  // The stack is a path, so a node can only be where its depth says.
  ghost predicate OnStack(t: Tree, stack: seq<Entry>, n: nat)
    requires n < |t.paths|
  {
    |t.paths[n]| < |stack| && stack[|t.paths[n]|].node == n
  }

  // What holds as long as no children are placed twice: placed are the nodes with placed
  // children, seen the nodes that have been on the stack.
  ghost predicate Toured(t: Tree, stack: seq<Entry>, placed: set<nat>, seen: set<nat>) {
    |t.nodes| == |t.paths| == |t.parents| > 0 && placed <= seen && 0 in seen &&
    (forall m :: m in seen ==> m < |t.nodes|) &&
    (forall m :: m in seen && m != 0 ==> t.parents[m] in placed) &&
    (forall i :: 0 <= i < |stack| ==> EntryTour(t, stack[i], placed, seen)) &&
    forall m :: m in seen && !OnStack(t, stack, m) ==> Complete(t, placed, seen, m)
  }

  ghost predicate EntryTour(t: Tree, e: Entry, placed: set<nat>, seen: set<nat>) {
    e.node < |t.nodes| && e.node in seen && (e.order == [] <==> e.node !in placed) &&
    if e.order == [] then e.next == 0
    else e.order == SortedCodes(t.nodes[e.node].children.Keys) &&
         forall j :: 0 <= j < |e.order| ==> Visited(t, e, seen, j)
  }

  ghost predicate Visited(t: Tree, e: Entry, seen: set<nat>, j: nat)
    requires e.node < |t.nodes| && j < |e.order|
  {
    e.order[j] in t.nodes[e.node].children && (t.nodes[e.node].children[e.order[j]] in seen <==> j < e.next)
  }

  ghost predicate Complete(t: Tree, placed: set<nat>, seen: set<nat>, m: nat)
    requires m < |t.nodes|
  {
    (t.nodes[m].children != map[] ==> m in placed) &&
    forall c :: c in t.nodes[m].children ==> t.nodes[m].children[c] in seen
  }

  lemma TourStart(t: Tree)
    requires TreeOk(t)
    ensures StackOk(t, [Entry(0, 0, [])]) && Toured(t, [Entry(0, 0, [])], {}, {0})
  {
    assert t.paths[0] == [];
  }

  lemma TourTop(t: Tree, stack: seq<Entry>, placed: set<nat>, seen: set<nat>, i: nat)
    requires StackOk(t, stack) && Toured(t, stack, placed, seen) && i < |stack|
    ensures |t.nodes| == |t.paths| && EntryTour(t, stack[i], placed, seen) && EntryOk(t, stack[i], i)
  {}

  lemma NodeSeen(t: Tree, e: Entry, placed: set<nat>, seen: set<nat>)
    requires EntryTour(t, e, placed, seen)
    ensures e.node in seen && (e.order == [] <==> e.node !in placed) && (e.order == [] ==> e.next == 0)
    ensures e.order != [] ==> e.order == SortedCodes(t.nodes[e.node].children.Keys)
  {}

  lemma SeenSlotted(t: Tree, stack: seq<Entry>, placed: set<nat>, seen: set<nat>, n: nat)
    requires Toured(t, stack, placed, seen) && n in seen
    ensures n < |t.nodes| == |t.parents| && Slotted(t, placed, n)
  {}

  lemma PlacedSeen(t: Tree, stack: seq<Entry>, placed: set<nat>, seen: set<nat>)
    requires Toured(t, stack, placed, seen)
    ensures placed <= seen && |t.nodes| == |t.parents|
  {}

  // An entry is not disturbed by what happens to other nodes.
  lemma EntryKept(t: Tree, e: Entry, placed: set<nat>, seen: set<nat>, placed': set<nat>, seen': set<nat>)
    requires EntryTour(t, e, placed, seen) && (e.node in placed <==> e.node in placed') && seen <= seen'
    requires forall j :: 0 <= j < |e.order| && e.order[j] in t.nodes[e.node].children ==>
               (t.nodes[e.node].children[e.order[j]] in seen' ==> t.nodes[e.node].children[e.order[j]] in seen)
    ensures EntryTour(t, e, placed', seen')
  {
    forall j | 0 <= j < |e.order| && e.order != [] ensures Visited(t, e, seen', j) {
      assert Visited(t, e, seen, j);
    }
  }

  lemma NotSameNode(t: Tree, stack: seq<Entry>, i: nat, j: nat)
    requires StackOk(t, stack) && i < j < |stack|
    ensures stack[i].node < |t.paths| && stack[j].node < |t.paths|
    ensures |t.paths[stack[i].node]| == i && |t.paths[stack[j].node]| == j
  {
    assert EntryOk(t, stack[i], i) && EntryOk(t, stack[j], j);
  }

  // Placing the children of the node on top, for the first time.
  lemma PlacedEntry(t: Tree, e: Entry, placed: set<nat>, seen: set<nat>)
    requires TreeOk(t) && EntryTour(t, e, placed, seen) && e.order == [] && t.nodes[e.node].children != map[]
    requires forall m :: m in seen && m != 0 ==> m < |t.parents| && t.parents[m] in placed
    ensures EntryTour(t, e.(order := SortedCodes(t.nodes[e.node].children.Keys)), placed + {e.node}, seen)
  {
    hide TreeOk; hide SortedCodes;
    var order := SortedCodes(t.nodes[e.node].children.Keys);
    var e' := e.(order := order);
    SortedOrders(t.nodes[e.node].children.Keys);
    assert order != [] by {
      var c :| c in t.nodes[e.node].children.Keys;
      assert c in order;
    }
    forall j | 0 <= j < |order| ensures Visited(t, e', seen, j) {
      assert order[j] in order;
      assert order[j] in t.nodes[e.node].children.Keys;
      ChildKnown(t, e.node, order[j]);
    }
  }

  // The stack with the children of its top placed.
  function Refilled(stack: seq<Entry>, order: seq<nat>): seq<Entry>
    requires stack != []
  {
    stack[|stack| - 1 := stack[|stack| - 1].(order := order)]
  }

  lemma TourPlace(t: Tree, stack: seq<Entry>, placed: set<nat>, seen: set<nat>)
    requires TreeOk(t) && StackOk(t, stack) && Toured(t, stack, placed, seen) && stack != []
    requires var e := stack[|stack| - 1]; e.order == [] && e.node < |t.nodes| && t.nodes[e.node].children != map[]
    ensures var e := stack[|stack| - 1];
            Toured(t, Refilled(stack, SortedCodes(t.nodes[e.node].children.Keys)), placed + {e.node}, seen)
  {
    hide TreeOk; hide EntryTour; hide StackOk; hide EntryOk; hide Visited; hide SortedCodes;
    var top := |stack| - 1;
    var e := stack[top];
    var stack' := Refilled(stack, SortedCodes(t.nodes[e.node].children.Keys));
    var placed' := placed + {e.node};
    TourTop(t, stack, placed, seen, top);
    PlacedEntry(t, e, placed, seen);
    NodeSeen(t, e, placed, seen);
    forall i | 0 <= i < |stack| ensures EntryTour(t, stack'[i], placed', seen) {
      if i < top {
        TourTop(t, stack, placed, seen, i);
        NotSameNode(t, stack, i, top);
        EntryKept(t, stack[i], placed, seen, placed', seen);
      }
    }
    forall m | m in seen && !OnStack(t, stack', m) ensures Complete(t, placed', seen, m) {
      assert OnStack(t, stack', m) == OnStack(t, stack, m);
      assert Complete(t, placed, seen, m);
    }
  }

  lemma PushedEntry(t: Tree, e: Entry, placed: set<nat>, seen: set<nat>, m: nat)
    requires TreeOk(t) && EntryTour(t, e, placed, seen) && placed <= seen && e.next < |e.order|
    requires e.order[e.next] in t.nodes[e.node].children && m == t.nodes[e.node].children[e.order[e.next]]
    ensures m !in seen && m < |t.nodes| && EntryTour(t, e.(next := e.next + 1), placed, seen + {m})
    ensures EntryTour(t, Entry(m, 0, []), placed, seen + {m})
  {
    hide TreeOk; hide SortedCodes;
    var e' := e.(next := e.next + 1);
    SortedOrders(t.nodes[e.node].children.Keys);
    assert Visited(t, e, seen, e.next);
    ChildKnown(t, e.node, e.order[e.next]);
    forall j | 0 <= j < |e'.order| ensures Visited(t, e', seen + {m}, j) {
      assert Visited(t, e, seen, j);
      ChildKnown(t, e.node, e.order[j]);
      assert j < e.next ==> e.order[j] != e.order[e.next];
      assert j > e.next ==> e.order[e.next] != e.order[j];
    }
  }

  lemma OthersUnseen(t: Tree, e: Entry, placed: set<nat>, seen: set<nat>, m: nat)
    requires TreeOk(t) && EntryTour(t, e, placed, seen) && m < |t.parents| && t.parents[m] != e.node
    ensures EntryTour(t, e, placed, seen + {m})
  {
    hide TreeOk; hide SortedCodes;
    forall j | 0 <= j < |e.order| && e.order[j] in t.nodes[e.node].children
      ensures t.nodes[e.node].children[e.order[j]] != m
    {
      ChildKnown(t, e.node, e.order[j]);
    }
    EntryKept(t, e, placed, seen, placed, seen + {m});
  }

  // Pushing needs the top entry's children placed, but not that it has moved before.
  lemma TourPush(t: Tree, stack: seq<Entry>, placed: set<nat>, seen: set<nat>, m: nat)
    requires TreeOk(t) && StackNodes(t, stack) && Toured(t, stack, placed, seen) && stack != []
    requires MovesOn(t, stack, stack[|stack| - 1], m)
    ensures m !in seen && Toured(t, Pushed(stack, stack[|stack| - 1], m), placed, seen + {m})
  {
    hide TreeOk; hide EntryTour; hide Visited; hide Complete;
    var top := |stack| - 1;
    var e := stack[top];
    var stack' := Pushed(stack, e, m);
    var seen' := seen + {m};
    assert EntryTour(t, e, placed, seen);
    ChildKnown(t, e.node, e.order[e.next]);
    NodeSeen(t, e, placed, seen);
    PushedEntry(t, e, placed, seen, m);
    forall i | 0 <= i < |stack'| ensures EntryTour(t, stack'[i], placed, seen') {
      if i < top {
        assert EntryTour(t, stack[i], placed, seen);
        OthersUnseen(t, stack[i], placed, seen, m);
      }
    }
    forall k | k in seen' && !OnStack(t, stack', k) ensures Complete(t, placed, seen', k) {
      if k != m {
        assert !OnStack(t, stack, k);
        assert Complete(t, placed, seen, k);
        CompleteKept(t, placed, seen, seen', k);
      }
    }
  }

  // The node at height i has depth i.
  ghost predicate StackNodes(t: Tree, stack: seq<Entry>) {
    |t.nodes| == |t.paths| &&
    forall i :: 0 <= i < |stack| ==> stack[i].node < |t.nodes| && |t.paths[stack[i].node]| == i
  }

  lemma StackOkNodes(t: Tree, stack: seq<Entry>)
    requires StackOk(t, stack)
    ensures StackNodes(t, stack)
  {
    forall i | 0 <= i < |stack| ensures stack[i].node < |t.nodes| && |t.paths[stack[i].node]| == i {
      assert EntryOk(t, stack[i], i);
    }
  }

  // Placing the children of the node on top for the first time, and moving on to the first.
  lemma TourPlaceMove(t: Tree, stack: seq<Entry>, placed: set<nat>, seen: set<nat>, e: Entry, m: nat)
    requires TreeOk(t) && StackOk(t, stack) && Toured(t, stack, placed, seen) && stack != []
    requires stack[|stack| - 1].order == [] && MovesOn(t, stack, e, m)
    requires e.order == SortedCodes(t.nodes[e.node].children.Keys)
    ensures Toured(t, Pushed(stack, e, m), placed + {e.node}, seen + {m})
  {
    hide TreeOk; hide Toured; hide StackOk; hide SortedCodes;
    var order := SortedCodes(t.nodes[e.node].children.Keys);
    assert t.nodes[e.node].children != map[];
    TourPlace(t, stack, placed, seen);
    StackOkNodes(t, stack);
    var stack' := Refilled(stack, order);
    TourPush(t, stack', placed + {e.node}, seen, m);
    assert Pushed(stack', stack'[|stack| - 1], m) == Pushed(stack, e, m);
  }

  lemma CompleteKept(t: Tree, placed: set<nat>, seen: set<nat>, seen': set<nat>, k: nat)
    requires k < |t.nodes| && Complete(t, placed, seen, k) && seen <= seen'
    ensures Complete(t, placed, seen', k)
  {}

  lemma TourPop(t: Tree, stack: seq<Entry>, placed: set<nat>, seen: set<nat>)
    requires StackOk(t, stack) && Toured(t, stack, placed, seen) && stack != []
    requires var e := stack[|stack| - 1]; e.node < |t.nodes| && e.next == |t.nodes[e.node].children|
    ensures Toured(t, stack[..|stack| - 1], placed, seen)
  {
    hide EntryTour; hide StackOk; hide EntryOk; hide Visited; hide Complete;
    var top := |stack| - 1;
    var e := stack[top];
    var stack' := stack[..top];
    TourTop(t, stack, placed, seen, top);
    StackOkNodes(t, stack);
    forall m | m in seen && !OnStack(t, stack', m) ensures Complete(t, placed, seen, m) {
      if m == e.node {
        PoppedComplete(t, e, placed, seen);
      } else {
        assert !OnStack(t, stack, m);
      }
    }
  }

  lemma PoppedComplete(t: Tree, e: Entry, placed: set<nat>, seen: set<nat>)
    requires EntryTour(t, e, placed, seen) && e.next == |t.nodes[e.node].children|
    ensures Complete(t, placed, seen, e.node)
  {
    hide SortedCodes;
    var children := t.nodes[e.node].children;
    SortedOrders(children.Keys);
    assert e.order == [] ==> |children.Keys| == 0;
    forall c | c in children ensures children[c] in seen {
      assert c in children.Keys;
      assert c in e.order;
      var j :| 0 <= j < |e.order| && e.order[j] == c;
      assert Visited(t, e, seen, j);
    }
  }

  // When the stack is empty every node has been seen, and so all children are placed.
  lemma {:induction false} TourEnd(t: Tree, placed: set<nat>, seen: set<nat>, m: nat)
    requires TreeOk(t) && Toured(t, [], placed, seen) && m < |t.nodes|
    ensures m in seen && (m != 0 ==> t.parents[m] in placed) && (t.nodes[m].children != map[] ==> m in placed)
    decreases m
  {
    if m > 0 {
      assert ParentOk(t.nodes, t.parents[m], m);
      TourEnd(t, placed, seen, t.parents[m]);
      assert Complete(t, placed, seen, t.parents[m]);
    }
    assert Complete(t, placed, seen, m);
  }
}
