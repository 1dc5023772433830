// The placing pass as the source runs it, step by step: a base of 0 counts as "children not
// placed yet". What every run keeps, and when its result is a packing.
module Running {
  import opened Utf8
  import opened Automaton
  import opened PatternTrie
  import opened FailLinks
  import opened Allocation
  import opened Placing
  import opened Tour

  // ---------- Steps ----------

  ghost predicate EntrySlots(t: Tree, e: Entry, slot: seq<nat>) {
    e.node < |t.nodes| == |slot| && slot[e.node] >= 1 &&
    forall c :: c in e.order && c in t.nodes[e.node].children ==>
      t.nodes[e.node].children[c] < |t.nodes| && slot[t.nodes[e.node].children[c]] >= 1
  }

  // What holds in every run: the arrays are sound, and the nodes on the stack and their placed
  // children have slots.
  ghost predicate RunOk(t: Tree, r: Run) {
    TreeOk(t) && Sized(t.nodes, r, 0) && StackOk(t, r.stack) &&
    forall i :: 0 <= i < |r.stack| ==> EntrySlots(t, r.stack[i], r.slot)
  }

  function Top(r: Run): Entry
    requires r.stack != []
  {
    r.stack[|r.stack| - 1]
  }

  lemma TopOk(t: Tree, r: Run)
    requires RunOk(t, r) && r.stack != []
    ensures var e := Top(r);
            |t.nodes| == |t.paths| == |r.slot| && EntryOk(t, e, |r.stack| - 1) && EntrySlots(t, e, r.slot) &&
            e.node < |t.nodes| && r.slot[e.node] < |r.base|
  {
    StackTop(t, r.stack);
  }

  // The node on top has a child to visit.
  ghost predicate HasNext(t: Tree, r: Run)
    requires r.stack != []
  {
    Top(r).node < |t.nodes| && Top(r).next < |t.nodes[Top(r).node].children|
  }

  // The base of the node on top.
  function TopBase(r: Run): int
    requires r.stack != [] && Top(r).node < |r.slot| && r.slot[Top(r).node] < |r.base|
  {
    r.base[r.slot[Top(r).node]]
  }

  // The source would read from an empty vector of children.
  ghost predicate Stuck(t: Tree, r: Run)
    requires RunOk(t, r) && r.stack != []
  {
    TopOk(t, r);
    HasNext(t, r) && Top(r).order == [] && TopBase(r) != 0
  }

  // The order in which the children of the node on top come after placing them.
  ghost function NewOrder(t: Tree, r: Run): seq<nat>
    requires r.stack != [] && Top(r).node < |t.nodes|
  {
    AddAll(Top(r).order, t.nodes[Top(r).node].children.Keys)
  }

  lemma NewOrderReady(t: Tree, r: Run)
    requires RunOk(t, r) && r.stack != [] && HasNext(t, r)
    ensures Top(r).node < |t.nodes| && KidsReady(t.nodes, Top(r).node, NewOrder(t, r), r)
    ensures Ascending(NewOrder(t, r)) && |NewOrder(t, r)| >= |t.nodes[Top(r).node].children| > 0
  {
    TopOk(t, r);
    var e, order := Top(r), NewOrder(t, r);
    AddAllAscending(e.order, t.nodes[e.node].children.Keys);
    forall i | 0 <= i < |order| ensures order[i] in t.nodes[e.node].children && 1 <= order[i] <= MAX_CODE {
      AddAllIn(e.order, t.nodes[e.node].children.Keys, order[i]);
      ChildKnown(t, e.node, order[i]);
    }
    forall c | c in t.nodes[e.node].children
      ensures t.nodes[e.node].children[c] < |t.nodes| && t.nodes[t.nodes[e.node].children[c]].code == c
    {
      ChildKnown(t, e.node, c);
    }
  }

  // The children of the node on top are placed.
  ghost function Refill(t: Tree, r: Run): Run
    requires RunOk(t, r) && r.stack != [] && HasNext(t, r)
  {
    NewOrderReady(t, r);
    PlaceKids(t.nodes, Top(r).node, NewOrder(t, r), r).(stack := Refilled(r.stack, NewOrder(t, r)))
  }

  // The node on top has another child in its order.
  ghost predicate CanMove(t: Tree, r: Run) {
    r.stack != [] && Top(r).node < |t.nodes| && Top(r).next < |Top(r).order| &&
    Top(r).order[Top(r).next] in t.nodes[Top(r).node].children
  }

  lemma TopMoves(t: Tree, r: Run)
    requires RunOk(t, r) && r.stack != [] && HasNext(t, r) && Top(r).order != []
    ensures CanMove(t, r) && MovesOn(t, r.stack, Top(r), NextChild(t, r))
    ensures CodesKnown(t.nodes, Top(r).node, Top(r).order)
    ensures Ascending(Top(r).order) && |Top(r).order| >= |t.nodes[Top(r).node].children|
  {
    TopOk(t, r);
  }

  lemma SizedRestack(nodes: seq<Node>, r: Run, hole: int, stack: seq<Entry>)
    requires Sized(nodes, r, hole)
    ensures Sized(nodes, r.(stack := stack), hole)
  {}

  // The child the node on top visits next.
  ghost function NextChild(t: Tree, r: Run): nat
    requires CanMove(t, r)
  {
    t.nodes[Top(r).node].children[Top(r).order[Top(r).next]]
  }

  // The next child of the node on top goes onto the stack.
  ghost function MoveOn(t: Tree, r: Run): Run
    requires CanMove(t, r)
  {
    r.(stack := Pushed(r.stack, Top(r), NextChild(t, r)))
  }

  // The slots after children were placed.
  lemma SlotsGrow(nodes: seq<Node>, n: nat, codes: seq<nat>, r: Run)
    requires KidsReady(nodes, n, codes, r)
    ensures var r' := PlaceKids(nodes, n, codes, r);
            |r'.slot| == |r.slot| && (forall m :: 0 <= m < |r.slot| ==> (r.slot[m] >= 1 ==> r'.slot[m] >= 1)) &&
            forall c :: c in codes && c in nodes[n].children ==>
              nodes[n].children[c] < |nodes| && r'.slot[nodes[n].children[c]] >= 1
  {
    KidsPlaced(nodes, n, codes, r);
    var g := KidsPlacing(nodes, n, codes, r);
    hide FindBase; hide PlaceKids; hide KidsPlacing; hide PlacedAt; hide Fits; hide CodesKnown; hide Sound; hide Grew;
    PlacedView(nodes, g, n);
    GrewSlot(r, g.r);
    forall m | 0 <= m < |r.slot| ensures r.slot[m] >= 1 ==> g.r'.slot[m] >= 1 {
      PlacedView(nodes, g, m);
      if IsChild(nodes, n, codes, m) { FitsView(g.r.s.check, g.base, codes, nodes[m].code); }
    }
    forall c | c in codes && c in nodes[n].children
      ensures nodes[n].children[c] < |nodes| && g.r'.slot[nodes[n].children[c]] >= 1
    {
      var m := nodes[n].children[c];
      PlacedView(nodes, g, m);
      FitsView(g.r.s.check, g.base, codes, c);
      assert IsChild(nodes, n, codes, m);
    }
  }

  lemma GrewSlot(r: Run, w: Run)
    requires Grew(r, w)
    ensures w.slot == r.slot && w.stack == r.stack && |r.base| <= |w.base| && |w.base| == |w.s.check| == |w.output|
    ensures Extends(r.base, w.base)
  {}

  lemma ReadyCodes(nodes: seq<Node>, n: nat, codes: seq<nat>, r: Run)
    requires KidsReady(nodes, n, codes, r)
    ensures CodesKnown(nodes, n, codes)
  {}

  // The entries below keep their slots.
  lemma EntryGrows(t: Tree, e: Entry, slot: seq<nat>, slot': seq<nat>)
    requires EntrySlots(t, e, slot) && |slot'| == |slot|
    requires forall m :: 0 <= m < |slot| ==> (slot[m] >= 1 ==> slot'[m] >= 1)
    ensures EntrySlots(t, e, slot')
  {}

  lemma RefilledEntries(t: Tree, stack: seq<Entry>, order: seq<nat>, slot: seq<nat>, slot': seq<nat>)
    requires stack != [] && |slot'| == |slot| && stack[|stack| - 1].node < |t.nodes|
    requires forall i :: 0 <= i < |stack| ==> EntrySlots(t, stack[i], slot)
    requires forall m :: 0 <= m < |slot| ==> (slot[m] >= 1 ==> slot'[m] >= 1)
    requires var n := stack[|stack| - 1].node;
             forall c :: c in order && c in t.nodes[n].children ==>
               t.nodes[n].children[c] < |t.nodes| == |slot| && slot'[t.nodes[n].children[c]] >= 1
    ensures forall i :: 0 <= i < |stack| ==> EntrySlots(t, Refilled(stack, order)[i], slot')
  {
    forall i | 0 <= i < |stack| ensures EntrySlots(t, Refilled(stack, order)[i], slot') {
      assert EntrySlots(t, stack[i], slot);
      if i < |stack| - 1 { EntryGrows(t, stack[i], slot, slot'); }
    }
  }

  lemma RefilledSlots(t: Tree, r: Run)
    requires RunOk(t, r) && r.stack != [] && HasNext(t, r)
    ensures forall i :: 0 <= i < |r.stack| ==> EntrySlots(t, Refilled(r.stack, NewOrder(t, r))[i], Refill(t, r).slot)
  {
    NewOrderReady(t, r);
    TopOk(t, r);
    SlotsGrow(t.nodes, Top(r).node, NewOrder(t, r), r);
    hide PlaceKids; hide Sized; hide TreeOk; hide StackOk; hide KidsReady; hide EntryOk; hide NewOrder; hide EntrySlots;
    RefilledEntries(t, r.stack, NewOrder(t, r), r.slot, Refill(t, r).slot);
  }

  lemma RefillOk(t: Tree, r: Run)
    requires RunOk(t, r) && r.stack != [] && HasNext(t, r)
    ensures var p := Refill(t, r);
            Sized(t.nodes, p, 0) && p.stack == Refilled(r.stack, NewOrder(t, r)) &&
            Top(p) == Top(r).(order := NewOrder(t, r)) && CodesKnown(t.nodes, Top(p).node, Top(p).order) &&
            forall i :: 0 <= i < |p.stack| ==> EntrySlots(t, p.stack[i], p.slot)
  {
    NewOrderReady(t, r);
    RefilledSlots(t, r);
    hide PlaceKids; hide Sized; hide FindBase; hide AddAll; hide TreeOk; hide StackOk; hide CodesKnown; hide Ascending;
    hide EntrySlots; hide NewOrder;
    var e, order := Top(r), NewOrder(t, r);
    var p := Refill(t, r);
    KidsSound(t.nodes, e.node, order, r);
    SizedRestack(t.nodes, PlaceKids(t.nodes, e.node, order, r), 0, p.stack);
    ReadyCodes(t.nodes, e.node, order, r);
  }

  // The step of the source's loop.
  ghost function Next(t: Tree, r: Run): Run
    requires RunOk(t, r) && r.stack != [] && !Stuck(t, r)
  {
    TopOk(t, r);
    if !HasNext(t, r) then r.(stack := r.stack[..|r.stack| - 1])
    else if TopBase(r) == 0 then
      RefillMoves(t, r);
      MoveOn(t, Refill(t, r))
    else MoveOn(t, r)
  }

  lemma RefillMoves(t: Tree, r: Run)
    requires RunOk(t, r) && r.stack != [] && HasNext(t, r)
    ensures var p := Refill(t, r);
            CanMove(t, p) && Top(p).node == Top(r).node && MovesOn(t, r.stack, Top(p), NextChild(t, p))
  {
    RefillOk(t, r);
    NewOrderReady(t, r);
  }

  lemma MoveOnOk(t: Tree, stack: seq<Entry>, p: Run, m: nat)
    requires TreeOk(t) && Sized(t.nodes, p, 0) && StackOk(t, stack) && p.stack != [] && MovesOn(t, stack, Top(p), m)
    requires |p.stack| == |stack| && p.stack[..|stack| - 1] == stack[..|stack| - 1]
    requires CodesKnown(t.nodes, Top(p).node, Top(p).order) && Ascending(Top(p).order)
    requires |Top(p).order| >= |t.nodes[Top(p).node].children|
    requires forall i :: 0 <= i < |p.stack| ==> EntrySlots(t, p.stack[i], p.slot)
    ensures MoveOn(t, p).stack == Pushed(stack, Top(p), m) && RunOk(t, MoveOn(t, p))
    ensures |stack| + 1 <= |t.nodes| && Left(t, MoveOn(t, p).stack, |t.nodes|) < Left(t, stack, |t.nodes|)
  {
    hide TreeOk; hide Sized; hide StackOk; hide CodesKnown; hide Left; hide Ascending;
    var top := |stack| - 1;
    var q := MoveOn(t, p);
    ChildKnown(t, Top(p).node, Top(p).order[Top(p).next]);
    SizedRestack(t.nodes, p, 0, q.stack);
    StackPush(t, stack, Top(p), m);
    assert EntrySlots(t, p.stack[top], p.slot);
    assert Top(p).order[Top(p).next] in Top(p).order;
    forall i | 0 <= i < |q.stack| ensures EntrySlots(t, q.stack[i], q.slot) {
      if i < top { assert EntrySlots(t, p.stack[i], p.slot); }
    }
    StackHeight(t, q.stack);
    LeftPush(t, stack, Top(p), m, |t.nodes|);
  }

  // A step keeps the run sound, and there are fewer steps left.
  lemma NextOk(t: Tree, r: Run)
    requires RunOk(t, r) && r.stack != [] && !Stuck(t, r)
    ensures RunOk(t, Next(t, r)) && |r.stack| <= |t.nodes| && |Next(t, r).stack| <= |t.nodes|
    ensures Left(t, Next(t, r).stack, |t.nodes|) < Left(t, r.stack, |t.nodes|)
  {
    hide TreeOk; hide Sized; hide StackOk; hide CodesKnown; hide Left; hide Ascending; hide Refill; hide Visit;
    hide NewOrder; hide EntrySlots; hide MovesOn; hide NextChild;
    TopOk(t, r);
    StackHeight(t, r.stack);
    if !HasNext(t, r) {
      StackPop(t, r.stack);
      LeftPop(t, r.stack, |t.nodes|);
      SizedRestack(t.nodes, r, 0, r.stack[..|r.stack| - 1]);
      assert Next(t, r) == r.(stack := r.stack[..|r.stack| - 1]);
    } else {
      if TopBase(r) == 0 {
        RefillMoves(t, r);
        RefillOk(t, r);
        NewOrderReady(t, r);
        MoveOnOk(t, r.stack, Refill(t, r), NextChild(t, Refill(t, r)));
      } else {
        TopMoves(t, r);
        MoveOnOk(t, r.stack, r, NextChild(t, r));
      }
    }
  }

  lemma RunHeight(t: Tree, r: Run)
    requires RunOk(t, r)
    ensures StackOk(t, r.stack) && |r.stack| <= |t.nodes|
  {
    StackHeight(t, r.stack);
  }

  ghost function StepsLeft(t: Tree, r: Run): nat
    requires RunOk(t, r)
  {
    RunHeight(t, r);
    Left(t, r.stack, |t.nodes|)
  }

  // Where the run ends: with an empty stack, or where the source's behaviour is undefined.
  ghost function Finish(t: Tree, r: Run): Run
    requires RunOk(t, r)
    decreases StepsLeft(t, r)
  {
    if r.stack == [] || Stuck(t, r) then r
    else
      NextOk(t, r);
      Finish(t, Next(t, r))
  }

  // ---------- What holds as long as no children are placed twice ----------

  // The tour and the slots are right.
  ghost predicate Clean(t: Tree, r: Run, placed: set<nat>, seen: set<nat>) {
    RunOk(t, r) && Toured(t, r.stack, placed, seen) && SlotsOk(t, placed, r)
  }

  // The node on top has its children placed exactly if its order is not empty, and a base other
  // than 0 only if they are.
  lemma CleanTop(t: Tree, r: Run, placed: set<nat>, seen: set<nat>)
    requires Clean(t, r, placed, seen) && r.stack != []
    ensures var e := Top(r);
            e.node < |t.nodes| == |t.parents| && |r.slot| == |t.nodes| && Slotted(t, placed, e.node) &&
            r.slot[e.node] < |r.base| && (e.order == [] <==> e.node !in placed) &&
            (e.order == [] ==> e.next == 0 && TopBase(r) == 0) &&
            (e.order != [] ==> e.order == SortedCodes(t.nodes[e.node].children.Keys) && e.next > 0)
  {
    hide SortedCodes; hide TreeOk; hide Sized; hide SlotsOk; hide Toured;
    var e := Top(r);
    TopOk(t, r);
    TourTop(t, r.stack, placed, seen, |r.stack| - 1);
    NodeSeen(t, e, placed, seen);
    SeenSlotted(t, r.stack, placed, seen, e.node);
    SlotView(t, placed, r, e.node);
  }

  // A clean run is never stuck.
  lemma CleanNotStuck(t: Tree, r: Run, placed: set<nat>, seen: set<nat>)
    requires Clean(t, r, placed, seen) && r.stack != []
    ensures !Stuck(t, r)
  {
    CleanTop(t, r, placed, seen);
  }

  // The event of placing the children of the node on top.
  ghost function Event(t: Tree, r: Run): Placing
    requires RunOk(t, r) && r.stack != [] && HasNext(t, r)
  {
    NewOrderReady(t, r);
    KidsPlacing(t.nodes, Top(r).node, NewOrder(t, r), r)
  }

  lemma EventOk(t: Tree, r: Run)
    requires RunOk(t, r) && r.stack != [] && HasNext(t, r)
    ensures var g := Event(t, r);
            g.n == Top(r).node < |t.nodes| && g.codes == NewOrder(t, r) && CodesKnown(t.nodes, g.n, g.codes) &&
            PlacedAt(t.nodes, g) && Fits(g.r.s.check, g.base, g.codes) && Grew(r, g.r) &&
            Refill(t, r) == g.r'.(stack := Refilled(r.stack, NewOrder(t, r)))
  {
    NewOrderReady(t, r);
    hide AddAll; hide PlaceKids; hide Sized; hide PlacedAt; hide Fits; hide Grew; hide CodesKnown;
    KidsPlaced(t.nodes, Top(r).node, NewOrder(t, r), r);
  }

  lemma SlotsRestack(t: Tree, placed: set<nat>, r: Run, stack: seq<Entry>)
    requires SlotsOk(t, placed, r)
    ensures SlotsOk(t, placed, r.(stack := stack))
  {
    forall m | 0 <= m < |t.nodes|
      ensures if Slotted(t, placed, m) then SlotOk(t, placed, r.(stack := stack), m) else r.slot[m] == 0
    {
      if Slotted(t, placed, m) { assert SlotOk(t, placed, r, m); }
    }
  }

  // The first placing of a node's children is a fresh one.
  lemma FreshEvent(t: Tree, r: Run, placed: set<nat>, seen: set<nat>)
    requires Clean(t, r, placed, seen) && r.stack != [] && HasNext(t, r) && Top(r).order == []
    ensures FreshPlacing(t, placed, Event(t, r)) && SlotsOk(t, placed + {Top(r).node}, Refill(t, r))
  {
    hide AddAll; hide PlaceKids; hide Sized; hide PlacedAt; hide Fits; hide Grew; hide CodesKnown; hide SlotsOk;
    hide TreeOk; hide Toured; hide StackOk; hide Orders;
    CleanTop(t, r, placed, seen);
    EventOk(t, r);
    var g := Event(t, r);
    SlotsExtended(t, placed, r, g.r);
    SortedOrders(t.nodes[g.n].children.Keys);
    SlotsPlace(t, placed, g);
    SlotsRestack(t, placed + {g.n}, g.r', Refilled(r.stack, NewOrder(t, r)));
  }

  // Placing for the first time, and moving on.
  lemma CleanPlaces(t: Tree, r: Run, placed: set<nat>, seen: set<nat>)
    requires Clean(t, r, placed, seen) && r.stack != [] && HasNext(t, r) && Top(r).order == []
    ensures !Stuck(t, r)
    ensures CanMove(t, Refill(t, r))
    ensures Next(t, r) == MoveOn(t, Refill(t, r))
    ensures Clean(t, Next(t, r), placed + {Top(r).node}, seen + {NextChild(t, Refill(t, r))})
  {
    hide AddAll; hide PlaceKids; hide SlotsOk; hide Sized; hide TreeOk; hide Toured; hide StackOk; hide CodesKnown;
    hide Refill; hide NewOrder; hide MovesOn; hide EntrySlots; hide EntryOk;
    CleanTop(t, r, placed, seen);
    NextOk(t, r);
    RefillMoves(t, r);
    FreshEvent(t, r, placed, seen);
    TourRefilled(t, r, placed, seen);
    SlotsRestack(t, placed + {Top(r).node}, Refill(t, r), Next(t, r).stack);
  }

  lemma TourRefilled(t: Tree, r: Run, placed: set<nat>, seen: set<nat>)
    requires Clean(t, r, placed, seen) && r.stack != [] && HasNext(t, r) && Top(r).order == []
    ensures var p := Refill(t, r);
            CanMove(t, p) && Toured(t, MoveOn(t, p).stack, placed + {Top(r).node}, seen + {NextChild(t, p)})
  {
    hide AddAll; hide PlaceKids; hide SlotsOk; hide Sized; hide TreeOk; hide Toured; hide StackOk; hide CodesKnown;
    hide EntrySlots; hide MovesOn;
    RefillMoves(t, r);
    RefillStack(t, r);
    var p := Refill(t, r);
    hide Refill;
    MoveOnStack(r.stack, p.stack, NewOrder(t, r), NextChild(t, p));
    TourPlaceMove(t, r.stack, placed, seen, Top(p), NextChild(t, p));
  }

  lemma RefillStack(t: Tree, r: Run)
    requires RunOk(t, r) && r.stack != [] && HasNext(t, r)
    ensures Refill(t, r).stack == Refilled(r.stack, NewOrder(t, r))
    ensures Top(Refill(t, r)) == Top(r).(order := NewOrder(t, r))
  {}

  lemma MoveOnStack(stack: seq<Entry>, stack': seq<Entry>, order: seq<nat>, m: nat)
    requires stack != [] && stack' == Refilled(stack, order)
    ensures Pushed(stack', stack'[|stack| - 1], m) == Pushed(stack, stack[|stack| - 1].(order := order), m)
  {}

  // Moving on to the next child of a node whose children are placed.
  lemma CleanMoves(t: Tree, r: Run, placed: set<nat>, seen: set<nat>)
    requires Clean(t, r, placed, seen) && r.stack != [] && HasNext(t, r) && Top(r).order != []
    requires Top(r).node < |r.slot| && r.slot[Top(r).node] < |r.base| && TopBase(r) != 0
    ensures !Stuck(t, r) && CanMove(t, r) && Next(t, r) == MoveOn(t, r)
    ensures Clean(t, Next(t, r), placed, seen + {NextChild(t, r)})
  {
    hide AddAll; hide PlaceKids; hide SlotsOk; hide Sized; hide TreeOk; hide Toured; hide StackOk; hide CodesKnown;
    NextOk(t, r);
    TopMoves(t, r);
    TopOk(t, r);
    StackOkNodes(t, r.stack);
    TourPush(t, r.stack, placed, seen, NextChild(t, r));
    SlotsRestack(t, placed, r, Next(t, r).stack);
  }

  // All children visited.
  lemma CleanPops(t: Tree, r: Run, placed: set<nat>, seen: set<nat>)
    requires Clean(t, r, placed, seen) && r.stack != [] && !HasNext(t, r)
    ensures !Stuck(t, r) && Next(t, r) == r.(stack := r.stack[..|r.stack| - 1]) && Clean(t, Next(t, r), placed, seen)
  {
    NextOk(t, r);
    TopOk(t, r);
    hide SlotsOk; hide Sized; hide TreeOk; hide Toured; hide StackOk; hide CodesKnown;
    TourPop(t, r.stack, placed, seen);
    SlotsRestack(t, placed, r, Next(t, r).stack);
  }

  // ---------- Children placed twice ----------

  // Placing the children of a placed node again leaves a stale slot for the rest of the run.
  lemma SecondPlacing(t: Tree, r: Run, placed: set<nat>, seen: set<nat>)
    requires Clean(t, r, placed, seen) && r.stack != [] && HasNext(t, r) && Top(r).order != []
    requires Top(r).node < |r.slot| && r.slot[Top(r).node] < |r.base| && TopBase(r) == 0
    ensures !Stuck(t, r) && exists x :: Stale(Next(t, r), x)
    ensures |t.nodes[Top(r).node].children| >= 2
  {
    hide AddAll; hide PlaceKids; hide Sized; hide PlacedAt; hide Fits; hide Grew; hide CodesKnown; hide SlotsOk;
    hide TreeOk; hide Toured; hide StackOk; hide EntrySlots;
    CleanTop(t, r, placed, seen);
    EventOk(t, r);
    RefillMoves(t, r);
    var g, c := Event(t, r), Top(r).order[0];
    SlotsExtended(t, placed, r, g.r);
    GrewSlot(r, g.r);
    SortedOrders(t.nodes[g.n].children.Keys);
    assert c in Top(r).order;
    assert c in t.nodes[g.n].children.Keys;
    AddAllIn(Top(r).order, t.nodes[g.n].children.Keys, c);
    StaleBorn(t, placed, g, c);
    assert Stale(Next(t, r), c);
  }

  lemma StaleNext(t: Tree, r: Run, x: nat)
    requires RunOk(t, r) && r.stack != [] && !Stuck(t, r) && Stale(r, x)
    ensures Stale(Next(t, r), x)
  {
    hide AddAll; hide PlaceKids; hide Sized; hide PlacedAt; hide Fits; hide Grew; hide CodesKnown;
    hide TreeOk; hide StackOk; hide EntrySlots;
    TopOk(t, r);
    if HasNext(t, r) && TopBase(r) == 0 {
      EventOk(t, r);
      RefillMoves(t, r);
      var g := Event(t, r);
      StaleWidened(r, g.r, x);
      StaleKept(t.nodes, g, x);
    }
  }

  // Once there is a stale slot, the result is no packing.
  lemma {:induction false} StaleFinish(t: Tree, r: Run, x: nat)
    requires RunOk(t, r) && Stale(r, x)
    ensures Stale(Finish(t, r), x)
    decreases StepsLeft(t, r)
  {
    hide RunOk; hide StepsLeft; hide Stale; hide Next;
    if r.stack != [] && !Stuck(t, r) {
      StaleNext(t, r, x);
      NextGoesOn(t, r);
      StaleFinish(t, Next(t, r), x);
    }
  }

  lemma TopInside(t: Tree, r: Run)
    requires RunOk(t, r) && r.stack != []
    ensures Top(r).node < |t.nodes| && Top(r).next <= |t.nodes[Top(r).node].children|
    ensures HasNext(t, r) <==> Top(r).next != |t.nodes[Top(r).node].children|
    ensures !HasNext(t, r) ==> !Stuck(t, r) && Next(t, r) == r.(stack := r.stack[..|r.stack| - 1])
  {
    TopOk(t, r);
  }

  lemma SlotsBounded(t: Tree, r: Run)
    requires RunOk(t, r)
    ensures |r.slot| == |t.nodes| && forall m :: 0 <= m < |r.slot| ==> r.slot[m] < |r.s.check|
  {}

  lemma FinishView(t: Tree, r: Run)
    requires RunOk(t, r)
    ensures r.stack == [] || Stuck(t, r) ==> Finish(t, r) == r
  {}

  lemma NextGoesOn(t: Tree, r: Run)
    requires RunOk(t, r) && r.stack != [] && !Stuck(t, r)
    ensures RunOk(t, Next(t, r)) && StepsLeft(t, Next(t, r)) < StepsLeft(t, r) && Finish(t, r) == Finish(t, Next(t, r))
  {
    NextOk(t, r);
  }

  lemma StaleNotPacked(t: Tree, r: Run, x: nat)
    requires Stale(r, x)
    ensures !Packed(t.nodes, r.base, r.s.check, r.slot)
  {}

  // ---------- The result ----------

  // When a clean run is over, the packing is right.
  lemma PackedAtEnd(t: Tree, r: Run, placed: set<nat>, seen: set<nat>)
    requires Clean(t, r, placed, seen) && r.stack == []
    ensures Packed(t.nodes, r.base, r.s.check, r.slot) && OutputsPacked(t.nodes, r.output, r.slot)
  {
    hide TreeOk; hide Toured; hide SlotsOk; hide MovesToChild; hide Sized; hide StackOk;
    RootThere(t);
    SlotView(t, placed, r, 0);
    forall m | 0 <= m < |t.nodes|
      ensures 1 <= r.slot[m] < |r.s.check| && r.s.check[r.slot[m]] != 0
      ensures r.output[r.slot[m]] == if m == 0 then 0 else t.nodes[m].matched
    {
      TourEnd(t, placed, seen, m);
      SlotView(t, placed, r, m);
    }
    forall m, k | 0 <= m < k < |t.nodes| ensures r.slot[m] != r.slot[k] {
      if r.slot[m] == r.slot[k] { ApartView(t, placed, r, m, k); }
    }
    forall x | 0 <= x < |r.s.check| && r.s.check[x] != 0 ensures x in r.slot {
      var m := Owner(t, placed, r, x);
    }
    forall n, c: nat | 0 <= n < |t.nodes| ensures MovesToChild(t.nodes, r.base, r.s.check, r.slot, n, c) {
      MovesRight(t, r, placed, seen, n, c);
    }
  }

  lemma RootThere(t: Tree)
    requires TreeOk(t)
    ensures |t.nodes| == |t.paths| == |t.parents| > 0 && t.paths[0] == []
  {}

  lemma MovesRight(t: Tree, r: Run, placed: set<nat>, seen: set<nat>, n: nat, c: nat)
    requires TreeOk(t) && Toured(t, [], placed, seen) && SlotsOk(t, placed, r)
    requires n < |t.nodes| == |r.slot| && r.slot[n] < |r.base|
    ensures MovesToChild(t.nodes, r.base, r.s.check, r.slot, n, c)
  {
    hide TreeOk; hide Toured; hide SlotsOk;
    SlotView(t, placed, r, n);
    if c in t.nodes[n].children {
      ChildKnown(t, n, c);
      var m := t.nodes[n].children[c];
      TourEnd(t, placed, seen, m);
      SlotView(t, placed, r, m);
    } else if Moves(r.base, r.s.check, r.slot[n], c) {
      TourEnd(t, placed, seen, n);
      var m := Owner(t, placed, r, r.base[r.slot[n]] + c);
      SlotView(t, placed, r, m);
      SlotView(t, placed, r, 0);
      if m != 0 {
        ParentKnown(t, m);
        if t.parents[m] != n { ApartView(t, placed, r, t.parents[m], n); }
      } else if n != 0 {
        ApartView(t, placed, r, 0, n);
      }
    }
  }

  ghost predicate OutputsPacked(nodes: seq<Node>, output: seq<nat>, slot: seq<nat>) {
    |slot| == |nodes| > 0 &&
    forall m :: 0 <= m < |nodes| ==>
      slot[m] < |output| && output[slot[m]] == if m == 0 then 0 else nodes[m].matched
  }
}
