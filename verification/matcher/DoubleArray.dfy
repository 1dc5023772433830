// The double-array matcher: the packed arrays, the free-slot allocator that grows them, and
// the placement of a pointer trie into them.
module DoubleArray {
  import opened Utf8
  import opened Automaton
  import opened Allocation
  import opened PatternTrie
  import opened FailLinks
  import opened Placing
  import opened Tour
  import opened Running
  import opened OncePass
  import opened LinkedMachine
  import opened Searching

  const ROOT: nat := 1
  // The last slot of the chain of a new matcher.
  const FIRST_LAST: nat := 605

  class DoubleArrayTrie {
    var baseVec: seq<int>
    var checkVec: seq<nat>
    var failVec: seq<nat>
    var outputVec: seq<nat>
    var chainQueue: seq<nat>
    var denseQueue: seq<nat>
    var blockUsed: seq<nat>
    var blockFails: seq<nat>
    var mapSize: nat
    var capacity: nat
    var maxChain: nat
    var ignoreCase: bool
    // No slot above top is used.
    ghost var top: nat
    // The patterns of the last build, and the trie made of them with its nodes' slots.
    ghost var patterns: seq<Text>
    ghost var plan: Plan

    ghost function State(): Slots
      reads this
    {
      Slots(checkVec, chainQueue, denseQueue, blockUsed, blockFails)
    }

    ghost function Contents(): Arrays
      reads this
    {
      Arrays(baseVec, checkVec, failVec, outputVec)
    }

    // The arrays in the middle of a placing pass.
    ghost function View(slot: seq<nat>, stack: seq<Entry>): Run
      reads this
    {
      Run(State(), maxChain, top, baseVec, outputVec, slot, stack)
    }

    ghost predicate Sizes()
      reads this
    {
      capacity == mapSize * BLOCK && |blockUsed| == |blockFails| == mapSize && capacity == maxChain + MAX_CODE &&
      maxChain > 0 && |baseVec| == |failVec| == |outputVec| == |checkVec| == capacity
    }

    // The arrays have their sizes, and the allocator is sound but for the slot hole.
    ghost predicate Valid(hole: int)
      reads this
    {
      Sizes() && Sound(State(), maxChain, top, hole)
    }

    // As the arrays are before a build.
    ghost predicate Blank()
      reads this
    {
      Sizes() && chainQueue == Range(1, maxChain) && denseQueue == [] && top == 0 &&
      baseVec == checkVec == failVec == outputVec == Zeros(capacity) && blockUsed == blockFails == Zeros(mapSize)
    }

    // As the arrays are between builds.
    ghost predicate Idle()
      reads this
    {
      Sizes() && chainQueue == [] && denseQueue == []
    }

    // The last build packed the patterns' trie and its links and outputs.
    ghost predicate Ready()
      reads this
    {
      Acceptable(patterns, ignoreCase) && Machine(plan, PatternCodes(patterns, ignoreCase), Contents())
    }

    constructor (patterns: seq<Text>, fold: bool)
      requires Acceptable(patterns, fold)
      ensures Idle() && this.patterns == patterns && ignoreCase == fold
      ensures Represents(plan, patterns, fold) && Built(plan, FIRST_LAST, Contents())
      ensures Ready() <==> Once(Shape(plan), FIRST_LAST)
      ensures Ready() <==> Packed(plan.nodes, baseVec, checkVec, plan.slot)
    {
      this.patterns, ignoreCase, plan := [], fold, Plan([], [], [], []);
      mapSize, capacity, maxChain, top := 0, 0, 0, 0;
      baseVec, checkVec, failVec, outputVec := [], [], [], [];
      chainQueue, denseQueue, blockUsed, blockFails := [], [], [], [];
      new;
      ReserveTrie();
      chainQueue := chainQueue[1..];
      RangeTail(maxChain);
      BlankNow();
      Build(patterns);
    }

    lemma BlankNow()
      requires Sizes() && top == 0 && denseQueue == [] && chainQueue == Range(1, maxChain)
      requires baseVec == Resize([], capacity, 0) && checkVec == Resize([], capacity, 0)
      requires failVec == Resize([], capacity, 0) && outputVec == Resize([], capacity, 0)
      requires blockUsed == Resize([], mapSize, 0) && blockFails == Halved(Resize([], mapSize, 0))
      ensures Blank()
    {}

    // Adds blocks until there is room beyond the largest code.
    method Widen()
      requires capacity == mapSize * BLOCK
      requires maxChain == if capacity > MAX_CODE then capacity - MAX_CODE else 0
      requires maxChain > 0 || mapSize == 0
      modifies this`mapSize, this`capacity, this`maxChain
      ensures capacity == mapSize * BLOCK == maxChain + MAX_CODE
      ensures if old(maxChain) > 0 then mapSize == old(mapSize) + GROWTH else maxChain == FIRST_LAST
    {
      mapSize, capacity := mapSize + GROWTH, capacity + GROWTH * BLOCK;
      maxChain := if capacity > MAX_CODE then capacity - MAX_CODE else 0;
      while maxChain == 0
        invariant capacity == mapSize * BLOCK && maxChain == if capacity > MAX_CODE then capacity - MAX_CODE else 0
        invariant old(maxChain) > 0 ==> mapSize == old(mapSize) + GROWTH && maxChain > 0
        invariant old(maxChain) == 0 ==> mapSize == 4 || mapSize == 8 || mapSize == 12
        decreases MAX_CODE + 1 - capacity
      {
        mapSize, capacity := mapSize + GROWTH, capacity + GROWTH * BLOCK;
        maxChain := if capacity > MAX_CODE then capacity - MAX_CODE else 0;
      }
    }

    // Makes the arrays as long as the capacity says.
    method Lengthen()
      requires |baseVec| <= capacity && |failVec| <= capacity && |outputVec| <= capacity && |checkVec| <= capacity
      requires |blockUsed| <= mapSize && |blockFails| <= mapSize
      modifies this`baseVec, this`checkVec, this`failVec, this`outputVec, this`blockUsed, this`blockFails
      ensures baseVec == Resize(old(baseVec), capacity, 0) && checkVec == Resize(old(checkVec), capacity, 0)
      ensures failVec == Resize(old(failVec), capacity, 0) && outputVec == Resize(old(outputVec), capacity, 0)
      ensures blockUsed == Resize(old(blockUsed), mapSize, 0) && blockFails == Resize(old(blockFails), mapSize, 0)
    {
      hide Resize;
      baseVec, checkVec := Resize(baseVec, capacity, 0), Resize(checkVec, capacity, 0);
      failVec, outputVec := Resize(failVec, capacity, 0), Resize(outputVec, capacity, 0);
      blockUsed, blockFails := Resize(blockUsed, mapSize, 0), Resize(blockFails, mapSize, 0);
    }

    // Adds blocks until the chain is not empty, and chains the new slots.
    method ReserveTrie()
      requires capacity == mapSize * BLOCK && |blockUsed| == |blockFails| == mapSize
      requires |baseVec| == |failVec| == |outputVec| == |checkVec| == capacity
      requires maxChain == if capacity > MAX_CODE then capacity - MAX_CODE else 0
      requires maxChain > 0 || mapSize == 0
      modifies this
      ensures ignoreCase == old(ignoreCase) && top == old(top)
      ensures capacity == mapSize * BLOCK == maxChain + MAX_CODE
      ensures if old(maxChain) > 0 then mapSize == old(mapSize) + GROWTH else maxChain == FIRST_LAST
      ensures mapSize >= old(mapSize) && maxChain >= old(maxChain)
      ensures baseVec == Resize(old(baseVec), capacity, 0) && failVec == Resize(old(failVec), capacity, 0)
      ensures outputVec == Resize(old(outputVec), capacity, 0)
      ensures State() == Enlarged(old(State()), old(maxChain), maxChain, mapSize)
    {
      hide Resize; hide Range; hide Halved;
      var oldMax := maxChain;
      Widen();
      Lengthen();
      ChainUp(oldMax);
      HalveFails();
    }

    method ChainUp(first: nat)
      requires first <= maxChain
      modifies this`chainQueue
      ensures chainQueue == old(chainQueue) + Range(first, maxChain)
    {
      var i := first;
      while i <= maxChain
        invariant first <= i <= maxChain + 1
        invariant chainQueue == old(chainQueue) + Range(first, maxChain)[..i - first]
      {
        assert Range(first, maxChain)[..i + 1 - first] == Range(first, maxChain)[..i - first] + [i];
        chainQueue := chainQueue + [i];
        i := i + 1;
      }
      assert Range(first, maxChain)[..i - first] == Range(first, maxChain);
    }

    method HalveFails()
      modifies this`blockFails
      ensures blockFails == Halved(old(blockFails))
    {
      var i := 0;
      while i < |blockFails|
        invariant 0 <= i <= |blockFails| == |old(blockFails)|
        invariant forall k :: 0 <= k < |blockFails| ==>
                    blockFails[k] == if k < i then old(blockFails)[k] / 2 else old(blockFails)[k]
      {
        blockFails := blockFails[i := blockFails[i] / 2];
        i := i + 1;
      }
    }

    // Empties every slot again and chains them all.
    method EraseAll()
      requires Idle()
      modifies this`baseVec, this`checkVec, this`failVec, this`outputVec
      modifies this`chainQueue, this`blockUsed, this`blockFails, this`top
      ensures Blank()
    {
      hide Zeros; hide Range;
      baseVec, checkVec := Zeros(|baseVec|), Zeros(|checkVec|);
      failVec, outputVec := Zeros(|failVec|), Zeros(|outputVec|);
      blockUsed, blockFails := Zeros(|blockUsed|), Zeros(|blockFails|);
      ChainUp(0);
      RangeTail(maxChain);
      assert [] + Range(0, maxChain) == Range(0, maxChain);
      chainQueue := chainQueue[1..];
      top := 0;
    }

    // Only single codes go to slots of dense blocks.
    method TakeDense(min: nat) returns (found: bool, base: int)
      requires Valid(0)
      modifies this`denseQueue
      ensures var r := FromDense(old(State())); State() == r.s && found == r.Found? && (found ==> base == r.entry - min)
    {
      found, base := false, 0;
      ghost var s := State();
      while denseQueue != []
        invariant Valid(0) && FromDense(State()) == FromDense(s)
        decreases |denseQueue|
      {
        DensePop(State(), maxChain, top);
        hide Sound;
        var entry := denseQueue[0];
        assert State().(dense := denseQueue[1..]) ==
               Slots(checkVec, chainQueue, denseQueue[1..], blockUsed, blockFails);
        denseQueue := denseQueue[1..];
        if checkVec[entry] == 0 {
          found, base := true, entry - min;
          return;
        }
      }
    }

    // Looks whether every slot base + c is empty.
    method Probe(codes: seq<nat>, base: int) returns (fits: bool)
      requires forall i :: 0 <= i < |codes| ==> 0 < base + codes[i] < |checkVec|
      ensures fits <==> Fits(checkVec, base, codes)
    {
      var i := 0;
      fits := true;
      while i < |codes|
        invariant 0 <= i <= |codes|
        invariant forall k :: 0 <= k < i ==> EmptyAt(checkVec, base + codes[k])
      {
        if checkVec[base + codes[i]] != 0 {
          assert !EmptyAt(checkVec, base + codes[i]);
          return false;
        }
        i := i + 1;
      }
    }

    method IncreaseBlockFailCount(x: nat)
      requires x / BLOCK < |blockFails|
      modifies this`blockFails
      ensures var n := old(blockFails)[x / BLOCK];
              blockFails == old(blockFails)[x / BLOCK := if n < THRESHOLD then n + 1 else n]
    {
      var b := x / BLOCK;
      blockFails := blockFails[b := if blockFails[b] < THRESHOLD then blockFails[b] + 1 else blockFails[b]];
    }

    // Takes one slot from the chain and tries it as the slot of the smallest code.
    method TryEntry(codes: seq<nat>, min: nat) returns (found: bool, base: int)
      requires Valid(0) && GoodCodes(codes) && IsMin(codes, min) && chainQueue != []
      modifies this`chainQueue, this`denseQueue, this`blockFails
      ensures var r := TryFront(old(State()), codes, min);
              State() == r.s && found == r.Found? && (found ==> base == r.entry - min)
    {
      var entry := chainQueue[0];
      ChainPop(State(), maxChain, top);
      BlockOf(State(), maxChain, top, 0, entry);
      CountersMatch(State(), maxChain, top, 0);
      ProbesInside(State(), maxChain, top, codes, min, entry);
      hide Sound; hide GoodCodes; hide IsMin; hide Fits;
      chainQueue := chainQueue[1..];
      var b := entry / BLOCK;
      found, base := false, entry - min;
      if checkVec[entry] != 0 { return; }
      if blockUsed[b] < THRESHOLD && blockFails[b] < THRESHOLD {
        found := Probe(codes, base);
        if found {
          blockFails := blockFails[b := 0];
        } else {
          IncreaseBlockFailCount(entry);
          chainQueue := chainQueue + [entry];
        }
      } else {
        denseQueue := denseQueue + [entry];
      }
    }

    // Goes once round the chain.
    method ScanChain(codes: seq<nat>, min: nat) returns (found: bool, base: int)
      requires Valid(0) && GoodCodes(codes) && IsMin(codes, min)
      modifies this`chainQueue, this`denseQueue, this`blockFails
      ensures var r := Scan(old(State()), codes, min, old(|chainQueue|));
              State() == r.s && found == r.Found? && (found ==> base == r.entry - min)
    {
      hide Sound; hide Fits; hide GoodCodes; hide IsMin; hide TryFront;
      ghost var s0 := State();
      var n := |chainQueue|;
      found, base := false, 0;
      var i := 0;
      while i < n
        invariant 0 <= i <= n && n - i <= |chainQueue| && Valid(0)
        invariant Scan(State(), codes, min, n - i) == Scan(s0, codes, min, n)
      {
        TryFrontOk(State(), maxChain, top, codes, min);
        found, base := TryEntry(codes, min);
        if found { return; }
        CountersMatch(State(), maxChain, top, 0);
        i := i + 1;
      }
    }

    lemma OnlyCode(codes: seq<nat>, min: nat)
      requires |codes| == 1 && IsMin(codes, min)
      ensures codes[0] == min
    {}

    // Searches what is queued.
    method SearchQueues(codes: seq<nat>, min: nat) returns (found: bool, base: int)
      requires Valid(0) && GoodCodes(codes) && IsMin(codes, min) && min == MinCode(codes)
      modifies this`chainQueue, this`denseQueue, this`blockFails
      ensures var r := Hunt(old(State()), codes);
              State() == r.s && found == r.Found? && (found ==> base == r.entry - min)
    {
      hide Sound; hide Fits; hide GoodCodes; hide IsMin; hide FromDense; hide Scan;
      if |codes| == 1 {
        OnlyCode(codes, min);
        FromDenseOk(State(), maxChain, top, codes, min);
        found, base := TakeDense(min);
        if found { return; }
      }
      found, base := ScanChain(codes, min);
    }

    // Grows the arrays in the middle of a search.
    method Grow()
      requires Sizes()
      modifies this
      ensures Sizes() && ignoreCase == old(ignoreCase) && top == old(top)
      ensures State() == Wider(old(State()), old(maxChain)) && maxChain == old(maxChain) + GROWTH * BLOCK
      ensures baseVec == Resize(old(baseVec), capacity, 0) && outputVec == Resize(old(outputVec), capacity, 0)
      ensures failVec == Resize(old(failVec), capacity, 0)
    {
      ReserveTrie();
    }

    // Finds a base for the codes, as the specification does.
    method GetProperBase(codes: seq<nat>) returns (base: int)
      requires Valid(0) && GoodCodes(codes)
      modifies this
      ensures ignoreCase == old(ignoreCase) && top == old(top) && Sizes()
      ensures Choice(State(), maxChain, base) == FindBase(old(State()), old(maxChain), old(top), codes)
      ensures baseVec == Resize(old(baseVec), capacity, 0) && outputVec == Resize(old(outputVec), capacity, 0)
      ensures failVec == Resize(old(failVec), capacity, 0)
    {
      hide Sound; hide Fits; hide GoodCodes; hide IsMin; hide FreshSlot; hide Hunt; hide Wider;
      CodesGiven(codes);
      var min := MinElement(codes);
      ResizeSame();
      while true
        invariant Valid(0) && top == old(top) && ignoreCase == old(ignoreCase) && capacity >= old(capacity)
        invariant FindBase(State(), maxChain, top, codes) == FindBase(old(State()), old(maxChain), old(top), codes)
        invariant baseVec == Resize(old(baseVec), capacity, 0) && outputVec == Resize(old(outputVec), capacity, 0)
        invariant failVec == Resize(old(failVec), capacity, 0)
        decreases FreshSlot(top) - maxChain
      {
        HuntOk(State(), maxChain, top, codes);
        MissedThenWider(State(), maxChain, top, codes);
        var found;
        found, base := SearchQueues(codes, min);
        CountersMatch(State(), maxChain, top, if found then base + min else 0);
        if found { return; }
        Grow();
      }
    }

    lemma ResizeSame()
      requires Sizes()
      ensures baseVec == Resize(baseVec, capacity, 0) && outputVec == Resize(outputVec, capacity, 0)
      ensures failVec == Resize(failVec, capacity, 0)
    {}

    // Writes the child of n for code c into its slot.
    method PlaceChild(nodes: seq<Node>, n: nat, base: int, c: nat, slot: seq<nat>, owner: nat, ghost stack: seq<Entry>)
      returns (slot': seq<nat>)
      requires n < |nodes| == |slot| && c in nodes[n].children && nodes[n].children[c] < |nodes|
      requires Sizes() && 0 <= base + c < capacity
      modifies this`checkVec, this`outputVec, this`blockUsed, this`top
      ensures Sizes() && View(slot', stack) == PlaceCode(nodes, n, base, c, owner, old(View(slot, stack)))
    {
      var x, m := base + c, nodes[n].children[c];
      checkVec := checkVec[x := owner];
      outputVec := outputVec[x := nodes[m].matched];
      slot' := slot[m := x];
      blockUsed := blockUsed[x / BLOCK := blockUsed[x / BLOCK] + 1];
      top := if x > top then x else top;
    }

    // Writes the children of n, for the given codes, into their slots.
    method PlaceChildren(nodes: seq<Node>, n: nat, base: int, codes: seq<nat>, slot: seq<nat>, ghost stack: seq<Entry>)
      returns (slot': seq<nat>)
      requires Sizes() && Fitting(nodes, n, base, codes, View(slot, stack))
      modifies this`checkVec, this`outputVec, this`blockUsed, this`top
      ensures Sizes()
      ensures View(slot', stack) == PlaceCodes(nodes, n, base, codes, slot[n], old(View(slot, stack)))
    {
      hide CodesKnown; hide ChildrenInside;
      ghost var r := View(slot, stack);
      slot' := slot;
      var i := 0;
      FittingNone(nodes, n, base, codes, r);
      while i < |codes|
        invariant 0 <= i <= |codes| && Sizes() && |slot'| == |slot|
        invariant Fitting(nodes, n, base, codes[..i], r)
        invariant View(slot', stack) == PlaceCodes(nodes, n, base, codes[..i], slot[n], r)
      {
        FittingSnoc(nodes, n, base, codes, slot[n], r, i);
        slot' := PlaceChild(nodes, n, base, codes[i], slot', slot[n], stack);
        i := i + 1;
      }
      assert codes[..|codes|] == codes;
    }

    // Finds a base for the children of the node on top of the stack and places them there.
    method PlaceTop(nodes: seq<Node>, stack: seq<Entry>, slot: seq<nat>, ghost t: Tree)
      returns (stack': seq<Entry>, slot': seq<nat>)
      requires nodes == t.nodes && Sizes() && RunOk(t, View(slot, stack)) && stack != []
      requires HasNext(t, View(slot, stack))
      modifies this
      ensures Sizes() && ignoreCase == old(ignoreCase) && View(slot', stack') == Refill(t, old(View(slot, stack)))
      ensures AllZero(old(failVec)) ==> AllZero(failVec)
    {
      hide Sound; hide CodesKnown; hide ChildrenInside; hide AddAll; hide Resize; hide FindBase; hide PlaceCodes;
      hide TreeOk; hide StackOk; hide GoodCodes; hide Fits; hide EntrySlots;
      var top := |stack| - 1;
      var e := stack[top];
      ghost var r := View(slot, stack);
      TopOk(t, r);
      NewOrderReady(t, r);
      var order := OrderChildren(nodes[e.node].children, e.order);
      ChoiceFits(nodes, e.node, order, r);
      var base := GetProperBase(order);
      baseVec := baseVec[slot[e.node] := base];
      assert View(slot, stack) == Based(r, e.node, BaseFor(nodes, e.node, order, r));
      slot' := PlaceChildren(nodes, e.node, base, order, slot, stack);
      stack' := stack[top := e.(order := order)];
    }

    // Gives the root its slot.
    method PlaceRoot(nodes: seq<Node>, ghost t: Tree) returns (stack: seq<Entry>, slot: seq<nat>)
      requires nodes == t.nodes && TreeOk(t) && Blank()
      modifies this`checkVec, this`failVec, this`blockUsed, this`top
      ensures Sizes() && ChainEnd(maxChain) && View(slot, stack) == StartRun(t, maxChain) && AllZero(failVec)
    {
      hide TreeOk;
      RootThere(t);
      slot := Zeros(|nodes|)[0 := ROOT];
      checkVec := checkVec[ROOT := 1];
      failVec := failVec[ROOT := 0];
      blockUsed := blockUsed[0 := blockUsed[0] + 1];
      top := ROOT;
      stack := [Entry(0, 0, [])];
    }

    // Goes on to the next child of the node on top of the stack, after placing its children if
    // its base is 0; defined is false if the source reads from an empty vector here.
    method Advance(nodes: seq<Node>, stack: seq<Entry>, slot: seq<nat>, ghost t: Tree)
      returns (stack': seq<Entry>, slot': seq<nat>, defined: bool)
      requires nodes == t.nodes && Sizes() && RunOk(t, View(slot, stack)) && stack != []
      requires HasNext(t, View(slot, stack))
      modifies this
      ensures Sizes() && ignoreCase == old(ignoreCase) && (AllZero(old(failVec)) ==> AllZero(failVec))
      ensures defined <==> !Stuck(t, old(View(slot, stack)))
      ensures View(slot', stack') == if defined then Next(t, old(View(slot, stack))) else old(View(slot, stack))
    {
      hide Sound; hide TreeOk; hide StackOk; hide EntrySlots; hide Refill; hide MoveOn;
      ghost var r := View(slot, stack);
      TopOk(t, r);
      RefillMoves(t, r);
      stack', slot', defined := stack, slot, true;
      if baseVec[slot[stack[|stack| - 1].node]] == 0 {
        stack', slot' := PlaceTop(nodes, stack, slot, t);
      } else if stack[|stack| - 1].order == [] {
        defined := false;
        return;
      } else {
        TopMoves(t, r);
      }
      stack' := PushChild(nodes, stack', slot', t);
    }

    // Puts the next child of the node on top onto the stack.
    method PushChild(nodes: seq<Node>, stack: seq<Entry>, ghost slot: seq<nat>,
                     ghost t: Tree) returns (stack': seq<Entry>)
      requires nodes == t.nodes && CanMove(t, View(slot, stack))
      ensures View(slot, stack') == MoveOn(t, View(slot, stack))
    {
      var top := |stack| - 1;
      var e := stack[top];
      stack' := stack[..top] + [e.(next := e.next + 1), Entry(nodes[e.node].children[e.order[e.next]], 0, [])];
    }

    // Places every node, depth first, as the specification does: the source takes a base of 0 to
    // mean that the children of a node are not placed yet.
    method Place(nodes: seq<Node>, ghost t: Tree) returns (slot: seq<nat>, defined: bool)
      requires nodes == t.nodes && TreeOk(t) && Blank()
      modifies this
      ensures ignoreCase == old(ignoreCase) && Sizes() && AllZero(failVec) && ChainEnd(old(maxChain))
      ensures var r := Outcome(t, old(maxChain));
              baseVec == r.base && checkVec == r.s.check && outputVec == r.output && slot == r.slot &&
              (defined <==> r.stack == [])
      ensures |slot| == |nodes| && forall m :: 0 <= m < |slot| ==> slot[m] < capacity
    {
      hide TreeOk; hide RunOk; hide Stuck; hide Next; hide StepsLeft; hide AllZero; hide HasNext; hide Finish;
      var stack;
      stack, slot := PlaceRoot(nodes, t);
      defined := true;
      ghost var start := View(slot, stack);
      OutcomeView(t, old(maxChain));
      while stack != []
        invariant Sizes() && ignoreCase == old(ignoreCase) && AllZero(failVec) && RunOk(t, View(slot, stack))
        invariant Finish(t, View(slot, stack)) == Outcome(t, old(maxChain))
        decreases StepsLeft(t, View(slot, stack))
      {
        ghost var r := View(slot, stack);
        TopInside(t, r);
        FinishView(t, r);
        if !Stuck(t, r) { NextGoesOn(t, r); }
        var top := |stack| - 1;
        if stack[top].next != |nodes[stack[top].node].children| {
          stack, slot, defined := Advance(nodes, stack, slot, t);
          if !defined {
            SlotsBounded(t, r);
            return;
          }
        } else {
          stack := stack[..top];
        }
      }
      FinishView(t, View(slot, stack));
      SlotsBounded(t, View(slot, stack));
    }

    // Copies the fail links of the children of curr, and queues them in any order.
    method CopyChildren(nodes: seq<Node>, slot: seq<nat>, queue: seq<nat>, curr: nat, ghost t: Tree,
                        ghost done: set<nat>)
      returns (queue': seq<nat>)
      requires nodes == t.nodes && TreeOk(t) && curr < |nodes| && FailsInside(nodes)
      requires SlotsInside(slot, |nodes|, |failVec|)
      requires Frontier(nodes, t.paths, t.parents, done, queue, curr, nodes[curr].children.Keys)
      requires FailsCopied(nodes, slot, failVec, MetSet(done, queue))
      modifies this`failVec
      ensures |failVec| == old(|failVec|)
      ensures Frontier(nodes, t.paths, t.parents, done, queue', curr, {})
      ensures FailsCopied(nodes, slot, failVec, MetSet(done, queue'))
    {
      hide Linked; hide Frontier; hide FailsCopied; hide MetSet;
      queue' := queue;
      var rest := nodes[curr].children.Keys;
      while rest != {}
        invariant rest <= nodes[curr].children.Keys && |failVec| == old(|failVec|)
        invariant Frontier(nodes, t.paths, t.parents, done, queue', curr, rest)
        invariant FailsCopied(nodes, slot, failVec, MetSet(done, queue'))
      {
        var c :| c in rest;
        var next := nodes[curr].children[c];
        FrontierStep(nodes, t.paths, t.parents, done, queue', curr, rest, c);
        CopyOne(nodes, slot, failVec, done, queue', next);
        failVec := failVec[slot[next] := slot[nodes[next].fail]];
        queue' := queue' + [next];
        rest := rest - {c};
      }
    }

    // Copies every fail link, breadth first.
    method CopyFails(nodes: seq<Node>, slot: seq<nat>, ghost t: Tree)
      requires nodes == t.nodes && TreeOk(t) && FailsInside(nodes) && SlotsInside(slot, |nodes|, |failVec|)
      requires AllZero(failVec)
      modifies this`failVec
      ensures |failVec| == old(|failVec|)
      ensures LinksPacked(nodes, failVec, slot) && NoOtherLinks(slot, failVec)
    {
      hide Linked; hide Frontier; hide FailsCopied; hide MetSet;
      RootThere(t);
      FrontierFirst(nodes, t.paths, t.parents);
      ghost var done: set<nat>, curr: nat := {0}, 0;
      NoneCopied(nodes, slot, failVec);
      var queue := CopyChildren(nodes, slot, [], 0, t, done);
      FrontierLeft(nodes, t.paths, t.parents, done, queue, curr, {});
      while queue != []
        invariant |failVec| == old(|failVec|) && |done| <= |nodes|
        invariant Frontier(nodes, t.paths, t.parents, done, queue, curr, {})
        invariant FailsCopied(nodes, slot, failVec, MetSet(done, queue))
        decreases |nodes| - |done|
      {
        FrontierPop(nodes, t.paths, t.parents, done, queue, curr);
        curr := queue[0];
        done := done + {curr};
        FrontierLeft(nodes, t.paths, t.parents, done, queue[1..], curr, nodes[curr].children.Keys);
        queue := CopyChildren(nodes, slot, queue[1..], queue[0], t, done);
      }
      AllCopied(t, slot, failVec, done, curr);
    }

    // Builds the pointer trie, links it, packs it and copies the links. The result is a matcher
    // for the patterns exactly if every node with two or more children is placed once.
    method Build(patterns: seq<Text>)
      requires Acceptable(patterns, ignoreCase) && Blank()
      modifies this
      ensures Idle() && this.patterns == patterns && ignoreCase == old(ignoreCase)
      ensures Represents(plan, patterns, ignoreCase) && Built(plan, old(maxChain), Contents())
      ensures Ready() <==> Once(Shape(plan), old(maxChain))
      ensures Ready() <==> Packed(plan.nodes, baseVec, checkVec, plan.slot)
    {
      hide Linked; hide Acceptable; hide Packed; hide OutputsPacked; hide AllZero; hide Outcome; hide Once;
      hide LinksPacked; hide PatternCodes; hide LinkedTrie; hide FailsInside; hide SlotsInside; hide Blank;
      hide Machine;
      var nodes;
      ghost var paths, parents;
      nodes, paths, parents := BuildTrie(patterns, ignoreCase);
      ghost var t := Tree(nodes, paths, parents);
      var slot, defined := Place(nodes, t);
      SlotsAreInside(slot, |nodes|, |failVec|);
      PackTrie(nodes, paths, parents, slot, PatternCodes(patterns, ignoreCase));
      chainQueue, denseQueue := [], [];
      if defined { CopyFails(nodes, slot, t); }
      this.patterns, plan := patterns, Plan(nodes, paths, parents, slot);
      BuiltMachine(plan, PatternCodes(patterns, ignoreCase), old(maxChain), Contents());
    }

    // Throws the trie away and builds another in the same arrays.
    method Rebuild(patterns: seq<Text>, fold: bool)
      requires Acceptable(patterns, fold) && Idle()
      modifies this
      ensures Idle() && this.patterns == patterns && ignoreCase == fold
      ensures Represents(plan, patterns, fold) && Built(plan, old(maxChain), Contents())
      ensures Ready() <==> Once(Shape(plan), old(maxChain))
      ensures Ready() <==> Packed(plan.nodes, baseVec, checkVec, plan.slot)
    {
      EraseAll();
      ignoreCase := fold;
      Build(patterns);
    }

    lemma Accepted()
      requires Ready()
      ensures Acceptable(patterns, ignoreCase)
    {}

    // One turn of the reading loop, whatever the arrays hold.
    method TakeTurn(curr: nat, code: nat) returns (turn: Turn)
      requires curr < |baseVec| && curr < |failVec|
      ensures turn == TurnAt(Contents(), curr, code)
    {
      if Moves(baseVec, checkVec, curr, code) {
        turn := Goes(baseVec[curr] + code);
      } else if curr == ROOT {
        turn := Stays;
      } else {
        turn := Fails(failVec[curr]);
      }
    }

    // Reads one code: follows fail links until the code leads on, or the root is reached.
    method Read(curr: nat, code: nat, ghost u: Path, ghost k: nat) returns (next: nat, ghost m: nat)
      requires Ready() && At(plan, u, curr, k)
      ensures At(plan, u + [code], next, m)
      ensures next < |outputVec| && IsOutput(PatternCodes(patterns, ignoreCase), u + [code], outputVec[next])
    {
      hide Machine; hide PatternCodes; hide Candidate; hide IsState; hide PathSet; hide Acceptable;
      ghost var P := PatternCodes(patterns, ignoreCase);
      next, m := curr, k;
      TryFirst(plan, P, Contents(), u, code, curr, k);
      SlotInArrays(plan, P, Contents(), m);
      var turn := TakeTurn(next, code);
      while turn.Fails?
        invariant Trying(plan, u, code, next, m) && next < |baseVec| && next < |failVec| && (next == 1 <==> m == 0)
        invariant turn == TurnAt(Contents(), next, code)
        decreases |plan.paths[m]|
      {
        TryNext(plan, P, Contents(), u, code, next, m);
        next, m := turn.next, plan.nodes[m].fail;
        SlotInArrays(plan, P, Contents(), m);
        turn := TakeTurn(next, code);
      }
      if turn.Goes? {
        m := TryHit(plan, P, Contents(), u, code, next, m);
        next := turn.next;
      } else {
        TryMiss(plan, P, Contents(), u, code, next);
      }
      OutputAtState(plan, P, Contents(), u + [code], next, m);
    }

    // Searches any bytes. The result lies inside them, its ends rise, and if they are
    // well-formed text it covers exactly the occurrences of the patterns and holds exactly
    // those that a search reports. On any bytes it holds the hits of the characters read.
    method Search(t: Text) returns (found: seq<Match>)
      requires Ready()
      ensures RealHits(found) && UpTo(found, |t|) && Rising(found)
      ensures WellFormed(t) ==> forall x :: x in Cover(found) <==> Covered(patterns, t, ignoreCase, x)
      ensures WellFormed(t) ==> forall m :: m in found <==> Reported(patterns, t, ignoreCase, m)
      ensures HitsIn(PatternCodes(patterns, ignoreCase), CharsFrom(t, ignoreCase, 0), found)
    {
      hide Reported; hide Merged; hide Added; hide Rising; hide UpTo; hide RealHits;
      hide CharsFrom; hide ScannedTo; hide HitsIn;
      hide Machine; hide PatternCodes; hide At; hide Code; hide Cover; hide Span; hide HitsOf; hide Reading;
      hide WellFormed; hide IsOutput; hide Size; hide Covered;
      ghost var P := PatternCodes(patterns, ignoreCase);
      ghost var u: Path, ends: seq<nat>, hits: seq<Match>, k: nat := [], [], [], 0;
      var curr, i := ROOT, 0;
      found := [];
      AtStart(plan, P, Contents());
      NoHits(P);
      MergedSnoc([], Match(0, 0));
      NoneRising();
      ScanStart(t, ignoreCase);
      if WellFormed(t) { ReadingStart(t, ignoreCase); }
      while i < |t|
        invariant 0 <= i <= |t| && At(plan, u, curr, k) && Size(u) <= i
        invariant HitsOf(P, u, ends, hits) && Cover(found) == Cover(hits) && found == Merged(hits)
        invariant Rising(hits) && UpTo(hits, i) && RealHits(found) && UpTo(found, i) && Rising(found)
        invariant WellFormed(t) ==> Reading(t, ignoreCase, u, ends, i)
        invariant ScannedTo(t, ignoreCase, u, ends, i)
      {
        var w := CharLength(t[i]);
        ScanNext(t, ignoreCase, u, ends, i);
        if WellFormed(t) { ReadingNext(t, ignoreCase, u, ends, i); }
        if w == 0 || i + w > |t| {
          UpToLater(hits, i, i + 1);
          UpToLater(found, i, i + 1);
          i := i + 1;
          continue;
        }
        UpToLater(found, i, i + w);
        var code := ReadCharCode(t, i, w);
        SizeGrows(u, t[i..i + w], ignoreCase, i);
        curr, k := Read(curr, code, u, k);
        u := u + [code];
        OutputFits(P, u, outputVec[curr]);
        var size := outputVec[curr];
        var m := Match(i + w - size, size);
        if size != 0 {
          found := AddHit(found, m, i);
        }
        EmptySpan(m);
        CoverSnoc(hits, m);
        MergedSnoc(hits, m);
        RisingSnoc(hits, m, i, i + w);
        HitsGrow(P, u[..|u| - 1], ends, hits, code, m);
        hits, ends := hits + [m], ends + [i + w];
        i := i + w;
      }
      ScanEnd(P, t, ignoreCase, u, ends, i, hits);
      if WellFormed(t) {
        HitsCover(t, ignoreCase, patterns, ends, hits, u);
        MergedReports(t, ignoreCase, patterns, ends, hits, u);
      }
    }

    // The code of the w bytes at i.
    method ReadCharCode(t: Text, i: nat, w: nat) returns (code: nat)
      requires i < |t| && w == CharLength(t[i]) && 1 <= w && i + w <= |t|
      ensures w <= 4 && code == Code(t[i..i + w], ignoreCase)
    {
      var ch := ReadChar(t, i, w);
      code := CharCode(ch, ignoreCase);
    }
  }

  // Inserts the patterns into a pointer trie, and links it.
  method BuildTrie(patterns: seq<Text>, fold: bool)
      returns (nodes: seq<Node>, ghost paths: seq<Path>, ghost parents: seq<nat>)
    requires Acceptable(patterns, fold)
    ensures Linked(nodes, paths, parents) && FailsInside(nodes)
    ensures LinkedTrie(Plan(nodes, paths, parents, []), PatternCodes(patterns, fold))
  {
    hide Linked; hide Holds; hide Acceptable; hide Final; hide PatternCodes; hide SameShape;
    var trie := new Trie();
    EmptyHolds();
    trie.Insert(patterns, fold);
    ghost var unlinked, P := trie.nodes, PatternCodes(patterns, fold);
    paths, parents := trie.paths, trie.parents;
    SetFailLinks(trie, P);
    nodes := trie.nodes;
    TrieLinked(nodes, unlinked, paths, parents, P);
  }
}
