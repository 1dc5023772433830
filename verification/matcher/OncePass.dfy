// The pass the source means to make: the nodes with children in preorder, the children of each
// placed exactly once. The source's run packs the trie if and only if this pass never gives base
// 0 to a node with two or more children.
module OncePass {
  import opened Utf8
  import opened Automaton
  import opened PatternTrie
  import opened FailLinks
  import opened Allocation
  import opened Placing
  import opened Tour
  import opened Running

  // ---------- Preorder ----------

  // The nodes with children from n down, each before its descendants, children in the order of
  // their codes.
  ghost function Preorder(t: Tree, n: nat): seq<nat>
    requires TreeOk(t) && n < |t.nodes|
    decreases |t.nodes| - n, 1, 0
  {
    if t.nodes[n].children == map[] then []
    else
      SortedKnown(t, n);
      [n] + PreorderFrom(t, n, SortedCodes(t.nodes[n].children.Keys), 0)
  }

  // From the children of n for the codes from number j on.
  ghost function PreorderFrom(t: Tree, n: nat, codes: seq<nat>, j: nat): seq<nat>
    requires TreeOk(t) && n < |t.nodes| && CodesKnown(t.nodes, n, codes)
    decreases |t.nodes| - n, 0, |codes| - j
  {
    if j >= |codes| then []
    else
      ChildKnown(t, n, codes[j]);
      Preorder(t, t.nodes[n].children[codes[j]]) + PreorderFrom(t, n, codes, j + 1)
  }

  lemma SortedKnown(t: Tree, n: nat)
    requires n < |t.nodes|
    ensures CodesKnown(t.nodes, n, SortedCodes(t.nodes[n].children.Keys))
  {
    hide SortedCodes;
    var codes := SortedCodes(t.nodes[n].children.Keys);
    SortedOrders(t.nodes[n].children.Keys);
    forall j | 0 <= j < |codes| ensures codes[j] in t.nodes[n].children {
      assert codes[j] in codes;
    }
  }

  // The nodes still to be placed, read off the stack.
  ghost function Upcoming(t: Tree, stack: seq<Entry>): seq<nat>
    requires TreeOk(t) && StackOk(t, stack)
    decreases |stack|
  {
    if stack == [] then []
    else
      StackTop(t, stack);
      StackPop(t, stack);
      FromEntry(t, stack[|stack| - 1]) + Upcoming(t, stack[..|stack| - 1])
  }

  ghost function FromEntry(t: Tree, e: Entry): seq<nat>
    requires TreeOk(t) && e.node < |t.nodes| && CodesKnown(t.nodes, e.node, e.order)
  {
    if e.order == [] then Preorder(t, e.node) else PreorderFrom(t, e.node, e.order, e.next)
  }

  // ---------- The pass ----------

  ghost function CodesOf(t: Tree, n: nat): seq<nat>
    requires n < |t.nodes|
  {
    SortedCodes(t.nodes[n].children.Keys)
  }

  // The children of n are placed. A node comes after its parent, so it has a slot by then.
  ghost function PlaceNode(t: Tree, r: Run, n: nat): Run
    requires n < |t.nodes|
  {
    if KidsReady(t.nodes, n, CodesOf(t, n), r) then PlaceKids(t.nodes, n, CodesOf(t, n), r) else r
  }

  // The base they get.
  ghost function GivenBase(t: Tree, r: Run, n: nat): int
    requires n < |t.nodes|
  {
    if KidsReady(t.nodes, n, CodesOf(t, n), r) then BaseFor(t.nodes, n, CodesOf(t, n), r).base else 0
  }

  ghost predicate AllNodes(t: Tree, ns: seq<nat>) {
    forall i :: 0 <= i < |ns| ==> ns[i] < |t.nodes|
  }

  // The arrays after the first i nodes.
  ghost function Pass(t: Tree, start: Run, ns: seq<nat>, i: nat): Run
    requires AllNodes(t, ns) && i <= |ns|
  {
    if i == 0 then start else PlaceNode(t, Pass(t, start, ns, i - 1), ns[i - 1])
  }

  ghost function GivenAt(t: Tree, start: Run, ns: seq<nat>, i: nat): int
    requires AllNodes(t, ns) && i < |ns|
  {
    GivenBase(t, Pass(t, start, ns, i), ns[i])
  }

  lemma {:induction false} PreorderNodes(t: Tree, n: nat)
    requires TreeOk(t) && n < |t.nodes|
    ensures AllNodes(t, Preorder(t, n))
    decreases |t.nodes| - n, 1, 0
  {
    if t.nodes[n].children != map[] {
      SortedKnown(t, n);
      PreorderFromNodes(t, n, CodesOf(t, n), 0);
    }
  }

  lemma {:induction false} PreorderFromNodes(t: Tree, n: nat, codes: seq<nat>, j: nat)
    requires TreeOk(t) && n < |t.nodes| && CodesKnown(t.nodes, n, codes)
    ensures AllNodes(t, PreorderFrom(t, n, codes, j))
    decreases |t.nodes| - n, 0, |codes| - j
  {
    if j < |codes| {
      ChildKnown(t, n, codes[j]);
      PreorderNodes(t, t.nodes[n].children[codes[j]]);
      PreorderFromNodes(t, n, codes, j + 1);
    }
  }

  // ---------- The start ----------

  // The slots with only the root's in use, for arrays whose chain ends at last.
  ghost function StartSlots(last: nat): Slots
    requires (last + MAX_CODE) % BLOCK == 0 && last > 0
  {
    var blocks := (last + MAX_CODE) / BLOCK;
    Slots(Zeros(blocks * BLOCK)[1 := 1], Range(1, last), [], Zeros(blocks)[0 := 1], Zeros(blocks))
  }

  ghost function StartRun(t: Tree, last: nat): Run
    requires (last + MAX_CODE) % BLOCK == 0 && last > 0 && |t.nodes| > 0
  {
    var size := last + MAX_CODE;
    Run(StartSlots(last), last, 1, Zeros(size), Zeros(size), Zeros(|t.nodes|)[0 := 1], [Entry(0, 0, [])])
  }

  // The last slots of the chain that arrays can have.
  predicate ChainEnd(last: nat) {
    (last + MAX_CODE) % BLOCK == 0 && last > 0
  }

  // The pass never gives base 0 to a node with two or more children.
  ghost predicate Once(t: Tree, last: nat)
    requires TreeOk(t) && ChainEnd(last)
  {
    RootThere(t);
    PreorderNodes(t, 0);
    var ns := Preorder(t, 0);
    forall i :: 0 <= i < |ns| && |t.nodes[ns[i]].children| >= 2 ==> GivenAt(t, StartRun(t, last), ns, i) != 0
  }

  lemma StartClean(t: Tree, last: nat)
    requires TreeOk(t) && ChainEnd(last)
    ensures |t.nodes| > 0 && Clean(t, StartRun(t, last), {}, {0})
  {
    RootThere(t);
    var r := StartRun(t, last);
    StartSound(last);
    TourStart(t);
    SlotsStart(t, r);
    hide Sound; hide StartSlots;
    assert EntrySlots(t, r.stack[0], r.slot);
  }

  lemma StartSound(last: nat)
    requires ChainEnd(last)
    ensures Sound(StartSlots(last), last, 1, 0) && Untouched(StartSlots(last), last)
    ensures |StartSlots(last).check| == last + MAX_CODE
  {
    var s := StartSlots(last);
    forall x | 1 <= x <= last && s.check[x] == 0 && x != 0 ensures Queued(s, x) {
      assert s.chain[x - 1] == x;
    }
  }

  // ---------- The run follows the pass ----------

  // The stack plays no part in placing.
  lemma {:induction false} PlaceCodesRestack(nodes: seq<Node>, n: nat, base: int, codes: seq<nat>, owner: nat, r: Run,
                                             stack: seq<Entry>)
    requires Fitting(nodes, n, base, codes, r)
    ensures PlaceCodes(nodes, n, base, codes, owner, r.(stack := stack)) ==
            PlaceCodes(nodes, n, base, codes, owner, r).(stack := stack)
    decreases |codes|
  {
    if codes != [] {
      var k := |codes| - 1;
      assert codes == codes[..k] + [codes[k]];
      PlaceCodesRestack(nodes, n, base, codes[..k], owner, r, stack);
    }
  }

  lemma PlaceKidsRestack(nodes: seq<Node>, n: nat, codes: seq<nat>, r: Run, stack: seq<Entry>)
    requires KidsReady(nodes, n, codes, r)
    ensures KidsReady(nodes, n, codes, r.(stack := stack))
    ensures PlaceKids(nodes, n, codes, r.(stack := stack)) == PlaceKids(nodes, n, codes, r).(stack := stack)
    ensures BaseFor(nodes, n, codes, r.(stack := stack)) == BaseFor(nodes, n, codes, r)
  {
    ReadyRestack(nodes, n, codes, r, stack);
    ChoiceFits(nodes, n, codes, r);
    var c := BaseFor(nodes, n, codes, r);
    hide Sound; hide FindBase; hide Fitting; hide KidsReady; hide PlaceCodes;
    PlaceCodesRestack(nodes, n, c.base, codes, r.slot[n], Based(r, n, c), stack);
  }

  lemma ReadyRestack(nodes: seq<Node>, n: nat, codes: seq<nat>, r: Run, stack: seq<Entry>)
    requires KidsReady(nodes, n, codes, r)
    ensures KidsReady(nodes, n, codes, r.(stack := stack))
  {
    SizedRestack(nodes, r, 0, stack);
  }

  // The base of node n.
  function BaseOf(r: Run, n: nat): int {
    if n < |r.slot| && r.slot[n] < |r.base| then r.base[r.slot[n]] else 0
  }

  // The first i nodes.
  ghost function PlacedBy(ns: seq<nat>, i: nat): set<nat>
    requires i <= |ns|
  {
    set k | 0 <= k < i :: ns[k]
  }

  // The run has come as far as the first i nodes of the pass, and nothing has been placed twice.
  ghost predicate InStep(t: Tree, start: Run, ns: seq<nat>, i: nat, r: Run, seen: set<nat>) {
    AllNodes(t, ns) && i <= |ns| && Clean(t, r, PlacedBy(ns, i), seen) &&
    r == Pass(t, start, ns, i).(stack := r.stack) && Upcoming(t, r.stack) == ns[i..] &&
    forall k :: 0 <= k < i ==> PlacedRight(t, start, ns, k, r)
  }

  // Node number k of the pass has its base, and if that is 0 it has been left again unless it is
  // a node with one child or its first child is being visited.
  ghost predicate PlacedRight(t: Tree, start: Run, ns: seq<nat>, k: nat, r: Run)
    requires AllNodes(t, ns) && k < |ns|
  {
    BaseOf(r, ns[k]) == GivenAt(t, start, ns, k) &&
    (GivenAt(t, start, ns, k) == 0 && |t.nodes[ns[k]].children| >= 2 ==> AtFirst(t, r.stack, ns[k]))
  }

  // Node n is on the stack and has moved once.
  ghost predicate AtFirst(t: Tree, stack: seq<Entry>, n: nat) {
    n < |t.paths| && OnStack(t, stack, n) && stack[|t.paths[n]|].next == 1
  }

  lemma InStepStart(t: Tree, last: nat)
    requires TreeOk(t) && ChainEnd(last)
    ensures |t.nodes| > 0 && InStep(t, StartRun(t, last), Preorder(t, 0), 0, StartRun(t, last), {0})
  {
    StartClean(t, last);
    PreorderNodes(t, 0);
    var r, ns := StartRun(t, last), Preorder(t, 0);
    assert r.stack[..0] == [] && ns[0..] == ns;
    hide Sound; hide StartSlots; hide Clean;
    assert PlacedBy(ns, 0) == {};
    assert Upcoming(t, r.stack) == FromEntry(t, r.stack[0]) + Upcoming(t, []);
  }

  lemma UpcomingTop(t: Tree, stack: seq<Entry>)
    requires TreeOk(t) && StackOk(t, stack) && stack != []
    ensures StackOk(t, stack[..|stack| - 1])
    ensures var e := stack[|stack| - 1];
            e.node < |t.nodes| && CodesKnown(t.nodes, e.node, e.order) &&
            Upcoming(t, stack) == FromEntry(t, e) + Upcoming(t, stack[..|stack| - 1])
  {
    StackTop(t, stack);
    StackPop(t, stack);
  }

  // A node whose children have all been visited has nothing to come.
  lemma NothingFrom(t: Tree, e: Entry)
    requires TreeOk(t) && e.node < |t.nodes| && CodesKnown(t.nodes, e.node, e.order)
    requires e.next == |t.nodes[e.node].children| && (e.order == [] ==> e.next == 0)
    requires e.order != [] ==> e.order == CodesOf(t, e.node)
    ensures FromEntry(t, e) == []
  {
    SortedOrders(t.nodes[e.node].children.Keys);
    assert |t.nodes[e.node].children| == |t.nodes[e.node].children.Keys|;
    if e.order == [] { assert t.nodes[e.node].children == map[]; }
  }

  // After visits to all children of the top the pass has come no further.
  lemma InStepPops(t: Tree, start: Run, ns: seq<nat>, i: nat, r: Run, seen: set<nat>)
    requires InStep(t, start, ns, i, r, seen) && r.stack != [] && !HasNext(t, r)
    ensures !Stuck(t, r) && InStep(t, start, ns, i, Next(t, r), seen)
  {
    hide Clean; hide PlacedRight; hide TreeOk; hide StackOk; hide SortedCodes;
    CleanParts(t, r, PlacedBy(ns, i), seen);
    CleanPops(t, r, PlacedBy(ns, i), seen);
    CleanTop(t, r, PlacedBy(ns, i), seen);
    TopOk(t, r);
    UpcomingTop(t, r.stack);
    NothingFrom(t, Top(r));
    var r' := Next(t, r);
    forall k | 0 <= k < i ensures PlacedRight(t, start, ns, k, r') {
      assert PlacedRight(t, start, ns, k, r);
      PoppedRight(t, start, ns, k, r);
    }
  }

  lemma CleanParts(t: Tree, r: Run, placed: set<nat>, seen: set<nat>)
    requires Clean(t, r, placed, seen)
    ensures RunOk(t, r) && TreeOk(t) && StackOk(t, r.stack) && StackNodes(t, r.stack)
  {
    StackOkNodes(t, r.stack);
  }

  lemma PoppedRight(t: Tree, start: Run, ns: seq<nat>, k: nat, r: Run)
    requires AllNodes(t, ns) && k < |ns| && r.stack != [] && PlacedRight(t, start, ns, k, r)
    requires StackNodes(t, r.stack) && Top(r).next == |t.nodes[Top(r).node].children|
    ensures PlacedRight(t, start, ns, k, r.(stack := r.stack[..|r.stack| - 1]))
  {
    hide GivenAt; hide StackNodes;
  }

  // Moving on from a node whose base is not 0.
  lemma InStepMoves(t: Tree, start: Run, ns: seq<nat>, i: nat, r: Run, seen: set<nat>)
    requires InStep(t, start, ns, i, r, seen) && r.stack != [] && HasNext(t, r) && Top(r).order != []
    requires Top(r).node < |r.slot| && r.slot[Top(r).node] < |r.base| && TopBase(r) != 0
    ensures !Stuck(t, r) && CanMove(t, r) && InStep(t, start, ns, i, Next(t, r), seen + {NextChild(t, r)})
  {
    hide Clean; hide PlacedRight; hide TreeOk; hide StackOk; hide SortedCodes;
    CleanParts(t, r, PlacedBy(ns, i), seen);
    CleanMoves(t, r, PlacedBy(ns, i), seen);
    CleanTop(t, r, PlacedBy(ns, i), seen);
    NextOk(t, r);
    TopMoves(t, r);
    UpcomingTop(t, r.stack);
    CleanParts(t, Next(t, r), PlacedBy(ns, i), seen + {NextChild(t, r)});
    UpcomingPushed(t, r.stack, Top(r), NextChild(t, r));
    var r' := Next(t, r);
    forall k | 0 <= k < i ensures PlacedRight(t, start, ns, k, r') {
      assert PlacedRight(t, start, ns, k, r);
      MovedRight(t, start, ns, k, r, NextChild(t, r));
    }
  }

  lemma MovedRight(t: Tree, start: Run, ns: seq<nat>, k: nat, r: Run, m: nat)
    requires AllNodes(t, ns) && k < |ns| && r.stack != [] && PlacedRight(t, start, ns, k, r)
    requires StackNodes(t, r.stack) && BaseOf(r, Top(r).node) != 0
    ensures PlacedRight(t, start, ns, k, r.(stack := Pushed(r.stack, Top(r), m)))
  {
    hide GivenAt; hide StackNodes;
  }

  // What is to come after the entry e, the top of the stack, has moved on to m.
  lemma UpcomingPushed(t: Tree, stack: seq<Entry>, e: Entry, m: nat)
    requires TreeOk(t) && StackOk(t, stack) && MovesOn(t, stack, e, m) && CodesKnown(t.nodes, e.node, e.order)
    requires StackOk(t, Pushed(stack, e, m)) && StackOk(t, stack[..|stack| - 1])
    ensures Upcoming(t, Pushed(stack, e, m)) ==
            PreorderFrom(t, e.node, e.order, e.next) + Upcoming(t, stack[..|stack| - 1])
  {
    hide TreeOk; hide StackOk; hide Upcoming;
    var stack' := Pushed(stack, e, m);
    var middle := stack'[..|stack|];
    var e' := e.(next := e.next + 1);
    UpcomingTop(t, stack');
    UpcomingTop(t, middle);
    assert middle == stack[..|stack| - 1] + [e'];
    assert middle[..|stack| - 1] == stack[..|stack| - 1];
    assert stack'[|stack|] == Entry(m, 0, []);
    ChildKnown(t, e.node, e.order[e.next]);
    assert Upcoming(t, stack') ==
           Preorder(t, m) + (PreorderFrom(t, e.node, e.order, e.next + 1) + Upcoming(t, stack[..|stack| - 1]));
  }

  // The first placing of the children of the node on top is the next step of the pass.
  lemma InStepPlaces(t: Tree, start: Run, ns: seq<nat>, i: nat, r: Run, seen: set<nat>)
    requires InStep(t, start, ns, i, r, seen) && r.stack != [] && HasNext(t, r) && Top(r).order == []
    ensures !Stuck(t, r) && CanMove(t, Refill(t, r))
    ensures InStep(t, start, ns, i + 1, Next(t, r), seen + {NextChild(t, Refill(t, r))})
  {
    hide Clean; hide PlacedRight; hide TreeOk; hide StackOk; hide SortedCodes; hide Refill; hide RunOk; hide Upcoming;
    hide NextChild; hide Next; hide Pass; hide Stuck; hide NewOrder; hide HasNext; hide Event;
    InStepParts(t, start, ns, i, r, seen);
    CleanPlaces(t, r, PlacedBy(ns, i), seen);
    TopIsNext(t, start, ns, i, r, seen);
    PlacesNext(t, start, ns, i, r, seen);
    PlacedByNext(ns, i);
    PassPlaces(t, start, ns, i, r, seen);
    forall k | 0 <= k < i + 1 ensures PlacedRight(t, start, ns, k, Next(t, r)) {
      if k < i {
        OldRight(t, start, ns, i, r, seen, k);
      } else {
        NewRight(t, start, ns, i, r, seen);
      }
    }
  }

  lemma PlacedByNext(ns: seq<nat>, i: nat)
    requires i < |ns|
    ensures PlacedBy(ns, i + 1) == PlacedBy(ns, i) + {ns[i]}
  {
    forall n ensures n in PlacedBy(ns, i + 1) <==> n in PlacedBy(ns, i) + {ns[i]} {}
  }

  // The node on top is the next of the pass.
  lemma TopIsNext(t: Tree, start: Run, ns: seq<nat>, i: nat, r: Run, seen: set<nat>)
    requires InStep(t, start, ns, i, r, seen) && r.stack != [] && HasNext(t, r) && Top(r).order == []
    ensures i < |ns| && ns[i] == Top(r).node < |t.nodes| && NewOrder(t, r) == CodesOf(t, ns[i])
    ensures TreeOk(t) && StackOk(t, r.stack[..|r.stack| - 1]) && CodesKnown(t.nodes, ns[i], CodesOf(t, ns[i]))
    ensures ns[i + 1..] == PreorderFrom(t, ns[i], CodesOf(t, ns[i]), 0) + Upcoming(t, r.stack[..|r.stack| - 1])
  {
    hide PlacedRight; hide TreeOk; hide StackOk; hide SortedCodes; hide Clean; hide InStep; hide NewOrder;
    hide Upcoming;
    hide RunOk;
    InStepParts(t, start, ns, i, r, seen);
    CleanTop(t, r, PlacedBy(ns, i), seen);
    UpcomingTop(t, r.stack);
    var e, codes := Top(r), CodesOf(t, Top(r).node);
    SortedKnown(t, e.node);
    NewOrderFirst(t, r);
    PreorderHead(t, e);
    Behead(ns, i, e.node, PreorderFrom(t, e.node, codes, 0), Upcoming(t, r.stack[..|r.stack| - 1]));
  }

  lemma PreorderHead(t: Tree, e: Entry)
    requires TreeOk(t) && e.node < |t.nodes| && e.order == [] && t.nodes[e.node].children != map[]
    ensures CodesKnown(t.nodes, e.node, e.order) && CodesKnown(t.nodes, e.node, CodesOf(t, e.node))
    ensures FromEntry(t, e) == [e.node] + PreorderFrom(t, e.node, CodesOf(t, e.node), 0)
  {
    SortedKnown(t, e.node);
  }

  lemma Behead(ns: seq<nat>, i: nat, n: nat, a: seq<nat>, b: seq<nat>)
    requires i <= |ns| && ns[i..] == [n] + a + b
    ensures i < |ns| && ns[i] == n && ns[i + 1..] == a + b
  {
    assert ns[i..][0] == ns[i] && ns[i..][1..] == ns[i + 1..];
  }

  lemma NewOrderFirst(t: Tree, r: Run)
    requires r.stack != [] && Top(r).node < |t.nodes| && Top(r).order == []
    ensures NewOrder(t, r) == CodesOf(t, Top(r).node)
  {}

  // Its descendants come after it.
  lemma PlacesNext(t: Tree, start: Run, ns: seq<nat>, i: nat, r: Run, seen: set<nat>)
    requires InStep(t, start, ns, i, r, seen) && r.stack != [] && HasNext(t, r) && Top(r).order == []
    ensures TreeOk(t) && !Stuck(t, r) && i < |ns| && StackOk(t, Next(t, r).stack)
    ensures Upcoming(t, Next(t, r).stack) == ns[i + 1..]
  {
    hide PlacedRight; hide TreeOk; hide StackOk; hide SortedCodes; hide Refill; hide Clean; hide PreorderFrom;
    hide Upcoming; hide InStep; hide NewOrder; hide Next;
    InStepParts(t, start, ns, i, r, seen);
    TopIsNext(t, start, ns, i, r, seen);
    CleanPlaces(t, r, PlacedBy(ns, i), seen);
    CleanTop(t, r, PlacedBy(ns, i), seen);
    NextPushes(t, r);
    var p := Refill(t, r);
    UpcomingPushed(t, r.stack, Top(p), NextChild(t, p));
  }

  lemma NextPushes(t: Tree, r: Run)
    requires RunOk(t, r) && r.stack != [] && HasNext(t, r) && !Stuck(t, r) && BaseOf(r, Top(r).node) == 0
    ensures var p := Refill(t, r);
            TreeOk(t) && StackOk(t, r.stack) && StackOk(t, Next(t, r).stack) && CanMove(t, p) &&
            MovesOn(t, r.stack, Top(p), NextChild(t, p)) && Top(p) == Top(r).(order := NewOrder(t, r)) &&
            Next(t, r).stack == Pushed(r.stack, Top(p), NextChild(t, p))
  {
    hide Refill; hide TreeOk; hide StackOk; hide NewOrder;
    NextOk(t, r);
    TopOk(t, r);
    RefillMoves(t, r);
    RefillStack(t, r);
    MoveOnStack(r.stack, Refill(t, r).stack, NewOrder(t, r), NextChild(t, Refill(t, r)));
  }

  // It changes the arrays by placing the children.
  lemma NextPlaces(t: Tree, r: Run)
    requires RunOk(t, r) && r.stack != [] && HasNext(t, r) && !Stuck(t, r) && BaseOf(r, Top(r).node) == 0
    ensures Top(r).node < |t.nodes| && KidsReady(t.nodes, Top(r).node, NewOrder(t, r), r)
    ensures Next(t, r) == PlaceKids(t.nodes, Top(r).node, NewOrder(t, r), r).(stack := Next(t, r).stack)
  {
    hide PlaceKids; hide TreeOk; hide StackOk; hide NewOrder; hide KidsReady; hide Sized;
    TopOk(t, r);
    NewOrderReady(t, r);
    RefillMoves(t, r);
  }

  lemma InStepParts(t: Tree, start: Run, ns: seq<nat>, i: nat, r: Run, seen: set<nat>)
    requires InStep(t, start, ns, i, r, seen)
    ensures AllNodes(t, ns) && i <= |ns| && Clean(t, r, PlacedBy(ns, i), seen) && RunOk(t, r) && TreeOk(t)
    ensures StackOk(t, r.stack) && StackNodes(t, r.stack) && Upcoming(t, r.stack) == ns[i..]
    ensures r.stack != [] && Top(r).order == [] ==> BaseOf(r, Top(r).node) == 0
  {
    hide Clean;
    CleanParts(t, r, PlacedBy(ns, i), seen);
    if r.stack != [] { CleanTop(t, r, PlacedBy(ns, i), seen); }
  }

  // The arrays agree with the pass.
  lemma PassPlaces(t: Tree, start: Run, ns: seq<nat>, i: nat, r: Run, seen: set<nat>)
    requires InStep(t, start, ns, i, r, seen) && r.stack != [] && HasNext(t, r) && !Stuck(t, r)
    requires BaseOf(r, Top(r).node) == 0
    requires i < |ns| && ns[i] == Top(r).node && NewOrder(t, r) == CodesOf(t, ns[i])
    ensures Next(t, r) == Pass(t, start, ns, i + 1).(stack := Next(t, r).stack)
    ensures Event(t, r).base == GivenAt(t, start, ns, i)
  {
    hide PlacedRight; hide TreeOk; hide StackOk; hide SortedCodes; hide Clean; hide PlaceKids; hide Upcoming;
    CleanParts(t, r, PlacedBy(ns, i), seen);
    NewOrderReady(t, r);
    RefillMoves(t, r);
    var q := Pass(t, start, ns, i);
    PlaceKidsRestack(t.nodes, ns[i], CodesOf(t, ns[i]), r, q.stack);
    assert r.(stack := q.stack) == q;
  }

  // Nodes placed before keep their bases, and none is left meanwhile.
  lemma OldRight(t: Tree, start: Run, ns: seq<nat>, i: nat, r: Run, seen: set<nat>, k: nat)
    requires InStep(t, start, ns, i, r, seen) && r.stack != [] && HasNext(t, r) && Top(r).order == []
    requires !Stuck(t, r) && k < i && PlacedRight(t, start, ns, k, r)
    ensures PlacedRight(t, start, ns, k, Next(t, r))
  {
    hide TreeOk; hide StackOk; hide SortedCodes; hide Clean; hide Upcoming; hide InStep; hide Next; hide Refill;
    hide GivenAt; hide NewOrder;
    InStepParts(t, start, ns, i, r, seen);
    NextPushes(t, r);
    OldBase(t, r, PlacedBy(ns, i), seen, ns[k]);
    CleanTop(t, r, PlacedBy(ns, i), seen);
    assert ns[k] in PlacedBy(ns, i);
    assert ns[k] != Top(r).node;
  }

  lemma OldBase(t: Tree, r: Run, placed: set<nat>, seen: set<nat>, n: nat)
    requires Clean(t, r, placed, seen) && r.stack != [] && HasNext(t, r) && Top(r).order == [] && n in placed
    requires !Stuck(t, r)
    ensures BaseOf(Next(t, r), n) == BaseOf(r, n)
  {
    hide AddAll; hide PlaceKids; hide Sized; hide PlacedAt; hide Fits; hide Grew; hide CodesKnown; hide SlotsOk;
    hide TreeOk; hide Toured; hide StackOk; hide Orders; hide EntrySlots;
    FreshEvent(t, r, placed, seen);
    EventOk(t, r);
    GrewSlot(r, Event(t, r).r);
    RefillMoves(t, r);
    CleanTop(t, r, placed, seen);
    PlacedSeen(t, r.stack, placed, seen);
    SeenSlotted(t, r.stack, placed, seen, n);
    SlotView(t, placed, r, n);
    BaseKept(t, placed, Event(t, r), n);
  }

  // The node placed now has the base it was given, and its first child is being visited.
  lemma NewRight(t: Tree, start: Run, ns: seq<nat>, i: nat, r: Run, seen: set<nat>)
    requires InStep(t, start, ns, i, r, seen) && r.stack != [] && HasNext(t, r) && Top(r).order == []
    requires !Stuck(t, r) && i < |ns| && ns[i] == Top(r).node && Event(t, r).base == GivenAt(t, start, ns, i)
    ensures PlacedRight(t, start, ns, i, Next(t, r))
  {
    hide TreeOk; hide StackOk; hide SortedCodes; hide Clean; hide Upcoming; hide InStep; hide Next; hide Refill;
    hide GivenAt; hide NewOrder;
    InStepParts(t, start, ns, i, r, seen);
    NextPushes(t, r);
    NewBase(t, r, PlacedBy(ns, i), seen);
    CleanTop(t, r, PlacedBy(ns, i), seen);
  }

  lemma NewBase(t: Tree, r: Run, placed: set<nat>, seen: set<nat>)
    requires Clean(t, r, placed, seen) && r.stack != [] && HasNext(t, r) && Top(r).order == [] && !Stuck(t, r)
    ensures BaseOf(Next(t, r), Top(r).node) == Event(t, r).base
  {
    hide AddAll; hide PlaceKids; hide Sized; hide PlacedAt; hide Fits; hide Grew; hide CodesKnown; hide SlotsOk;
    hide TreeOk; hide Toured; hide StackOk; hide Orders; hide EntrySlots;
    FreshEvent(t, r, placed, seen);
    EventOk(t, r);
    GrewSlot(r, Event(t, r).r);
    RefillMoves(t, r);
    CleanTop(t, r, placed, seen);
    NewSlot(t, placed, Event(t, r), Top(r).node);
    PlacedView(t.nodes, Event(t, r), Top(r).node);
  }

  // ---------- The decision ----------

  // No node with two or more children gets base 0.
  ghost predicate NoZero(t: Tree, start: Run, ns: seq<nat>) {
    AllNodes(t, ns) &&
    forall i :: 0 <= i < |ns| && |t.nodes[ns[i]].children| >= 2 ==> GivenAt(t, start, ns, i) != 0
  }

  // The result is a packing.
  ghost predicate EndsPacked(t: Tree, r: Run) {
    Packed(t.nodes, r.base, r.s.check, r.slot)
  }

  // The base of a node that was placed is 0 only if the pass gave it 0.
  lemma ZeroGiven(t: Tree, start: Run, ns: seq<nat>, i: nat, r: Run, seen: set<nat>)
    requires InStep(t, start, ns, i, r, seen) && r.stack != [] && HasNext(t, r) && Top(r).order != []
    requires Top(r).node < |r.slot| && r.slot[Top(r).node] < |r.base| && TopBase(r) == 0
    ensures !NoZero(t, start, ns) && !Stuck(t, r) && exists x :: Stale(Next(t, r), x)
  {
    hide Clean; hide TreeOk; hide StackOk; hide SortedCodes; hide Upcoming; hide Next; hide Stale;
    CleanTop(t, r, PlacedBy(ns, i), seen);
    SecondPlacing(t, r, PlacedBy(ns, i), seen);
    var k :| 0 <= k < i && ns[k] == Top(r).node;
    assert PlacedRight(t, start, ns, k, r);
  }

  // At the end of a clean run the pass is over, and no base 0 was given to a branching node.
  lemma CleanEnd(t: Tree, start: Run, ns: seq<nat>, i: nat, r: Run, seen: set<nat>)
    requires InStep(t, start, ns, i, r, seen) && r.stack == []
    ensures i == |ns| && NoZero(t, start, ns) && EndsPacked(t, r) && OutputsPacked(t.nodes, r.output, r.slot)
    ensures r == Pass(t, start, ns, |ns|).(stack := [])
  {
    hide Clean; hide TreeOk; hide StackOk; hide Pass; hide GivenAt;
    CleanParts(t, r, PlacedBy(ns, i), seen);
    PackedAtEnd(t, r, PlacedBy(ns, i), seen);
    assert |ns[i..]| == 0;
    forall k | 0 <= k < |ns| && |t.nodes[ns[k]].children| >= 2 ensures GivenAt(t, start, ns, k) != 0 {
      assert PlacedRight(t, start, ns, k, r);
    }
  }

  // The run ends with a packing exactly if the pass gives no branching node base 0, and then it
  // has made that pass.
  ghost predicate Decided(t: Tree, start: Run, ns: seq<nat>, r: Run) {
    AllNodes(t, ns) && (EndsPacked(t, r) <==> NoZero(t, start, ns)) &&
    (NoZero(t, start, ns) ==>
      r == Pass(t, start, ns, |ns|).(stack := []) && OutputsPacked(t.nodes, r.output, r.slot))
  }

  lemma CleanDecided(t: Tree, start: Run, ns: seq<nat>, i: nat, r: Run, seen: set<nat>)
    requires InStep(t, start, ns, i, r, seen) && r.stack == []
    ensures Decided(t, start, ns, r)
  {
    hide InStep; hide NoZero; hide EndsPacked; hide Pass;
    InStepParts(t, start, ns, i, r, seen);
    CleanEnd(t, start, ns, i, r, seen);
  }

  lemma ZeroDecided(t: Tree, start: Run, ns: seq<nat>, i: nat, r: Run, seen: set<nat>)
    requires InStep(t, start, ns, i, r, seen) && r.stack != [] && HasNext(t, r) && Top(r).order != []
    requires Top(r).node < |r.slot| && r.slot[Top(r).node] < |r.base| && TopBase(r) == 0
    requires !Stuck(t, r) && RunOk(t, Next(t, r))
    ensures Decided(t, start, ns, Finish(t, Next(t, r)))
  {
    hide InStep; hide NoZero; hide Pass; hide Stale; hide RunOk; hide Next; hide Finish; hide HasNext; hide Packed;
    InStepParts(t, start, ns, i, r, seen);
    ZeroGiven(t, start, ns, i, r, seen);
    var x :| Stale(Next(t, r), x);
    StaleFinish(t, Next(t, r), x);
    StaleNotPacked(t, Finish(t, Next(t, r)), x);
  }

  lemma {:induction false} Decide(t: Tree, start: Run, ns: seq<nat>, i: nat, r: Run, seen: set<nat>)
    requires RunOk(t, r) && InStep(t, start, ns, i, r, seen)
    ensures Decided(t, start, ns, Finish(t, r))
    decreases StepsLeft(t, r)
  {
    hide Clean; hide RunOk; hide StackOk; hide Next; hide Decided; hide InStep; hide StepsLeft; hide Upcoming;
    hide Stuck; hide HasNext; hide NextChild; hide Refill; hide CanMove; hide Finish; hide AllNodes; hide TreeOk;
    InStepParts(t, start, ns, i, r, seen);
    FinishView(t, r);
    if r.stack == [] {
      CleanDecided(t, start, ns, i, r, seen);
    } else {
      CleanTop(t, r, PlacedBy(ns, i), seen);
      CleanNotStuck(t, r, PlacedBy(ns, i), seen);
      NextGoesOn(t, r);
      if !HasNext(t, r) {
        InStepPops(t, start, ns, i, r, seen);
        Decide(t, start, ns, i, Next(t, r), seen);
      } else if Top(r).order == [] {
        InStepPlaces(t, start, ns, i, r, seen);
        Decide(t, start, ns, i + 1, Next(t, r), seen + {NextChild(t, Refill(t, r))});
      } else if TopBase(r) != 0 {
        InStepMoves(t, start, ns, i, r, seen);
        Decide(t, start, ns, i, Next(t, r), seen + {NextChild(t, r)});
      } else {
        ZeroDecided(t, start, ns, i, r, seen);
      }
    }
  }

  // The arrays after the whole pass.
  ghost function WholePass(t: Tree, last: nat): Run
    requires TreeOk(t) && ChainEnd(last)
  {
    RootThere(t);
    PreorderNodes(t, 0);
    Pass(t, StartRun(t, last), Preorder(t, 0), |Preorder(t, 0)|)
  }

  // What the source's run leaves.
  ghost function Outcome(t: Tree, last: nat): Run
    requires TreeOk(t) && ChainEnd(last)
  {
    StartClean(t, last);
    Finish(t, StartRun(t, last))
  }

  // The source packs the trie exactly if the pass it means to make places every branching node
  // once, and the result is that of the pass.
  lemma OnceIsPacked(t: Tree, last: nat)
    requires TreeOk(t) && ChainEnd(last)
    ensures var r := Outcome(t, last);
            (Packed(t.nodes, r.base, r.s.check, r.slot) <==> Once(t, last)) &&
            (Once(t, last) ==> OutputsPacked(t.nodes, r.output, r.slot) && r == WholePass(t, last).(stack := []))
  {
    hide Clean; hide RunOk; hide StackOk; hide Next; hide InStep; hide Finish; hide Preorder; hide Packed;
    InStepStart(t, last);
    StartClean(t, last);
    CleanParts(t, StartRun(t, last), {}, {0});
    Decide(t, StartRun(t, last), Preorder(t, 0), 0, StartRun(t, last), {0});
  }

  lemma OutcomeView(t: Tree, last: nat)
    requires TreeOk(t) && ChainEnd(last)
    ensures |t.nodes| > 0 && RunOk(t, StartRun(t, last)) && Outcome(t, last) == Finish(t, StartRun(t, last))
  {
    StartClean(t, last);
  }
}
