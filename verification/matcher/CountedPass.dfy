// The counted bounds at work: between which two slots the entry of each node of the pass lies,
// and so which tries are packed for sure, and which for sure are not.
module CountedPass {
  import opened Utf8
  import opened Automaton
  import opened PatternTrie
  import opened FailLinks
  import opened Allocation
  import opened Placing
  import opened Tour
  import opened Running
  import opened OncePass
  import opened Counting

  // ---------- The pass goes from parents to children ----------

  // Node number i of the list has children, and its parent stands before it, unless the parent
  // is n.
  ghost predicate ParentBefore(t: Tree, ns: seq<nat>, i: nat, n: nat)
    requires i < |ns|
  {
    ns[i] < |t.nodes| == |t.parents| && t.nodes[ns[i]].children != map[] &&
    (t.parents[ns[i]] == n || exists j :: 0 <= j < i && ns[j] == t.parents[ns[i]])
  }

  ghost predicate ParentsBefore(t: Tree, ns: seq<nat>, n: nat) {
    forall i :: 0 <= i < |ns| ==> ParentBefore(t, ns, i, n)
  }

  lemma BothBefore(t: Tree, a: seq<nat>, b: seq<nat>, n: nat)
    requires ParentsBefore(t, a, n) && ParentsBefore(t, b, n)
    ensures ParentsBefore(t, a + b, n)
  {
    forall i | 0 <= i < |a + b| ensures ParentBefore(t, a + b, i, n) {
      if i < |a| {
        assert ParentBefore(t, a, i, n);
        if t.parents[a[i]] != n {
          var j :| 0 <= j < i && a[j] == t.parents[a[i]];
          assert (a + b)[j] == a[j];
        }
      } else {
        var i' := i - |a|;
        assert ParentBefore(t, b, i', n);
        if t.parents[b[i']] != n {
          var j :| 0 <= j < i' && b[j] == t.parents[b[i']];
          assert (a + b)[|a| + j] == b[j];
        }
      }
    }
  }

  // Below a child of n, the child comes first.
  lemma HeadBefore(t: Tree, m: nat, rest: seq<nat>, n: nat)
    requires m < |t.nodes| == |t.parents| && t.nodes[m].children != map[] && t.parents[m] == n
    requires ParentsBefore(t, rest, m)
    ensures ParentsBefore(t, [m] + rest, n)
  {
    var ns := [m] + rest;
    forall i | 0 <= i < |ns| ensures ParentBefore(t, ns, i, n) {
      if i > 0 {
        assert ParentBefore(t, rest, i - 1, m);
        if t.parents[ns[i]] == m {
          assert ns[0] == m;
        } else {
          var j :| 0 <= j < i - 1 && rest[j] == t.parents[ns[i]];
          assert ns[j + 1] == rest[j];
        }
      }
    }
  }

  lemma {:induction false} PreorderBefore(t: Tree, n: nat)
    requires TreeOk(t) && n < |t.nodes| && t.nodes[n].children != map[]
    ensures Preorder(t, n) != [] && Preorder(t, n)[0] == n && ParentsBefore(t, Preorder(t, n)[1..], n)
    decreases |t.nodes| - n, 1, 0
  {
    SortedKnown(t, n);
    PreorderFromBefore(t, n, CodesOf(t, n), 0);
    assert Preorder(t, n) == [n] + PreorderFrom(t, n, CodesOf(t, n), 0);
  }

  lemma {:induction false} PreorderFromBefore(t: Tree, n: nat, codes: seq<nat>, j: nat)
    requires TreeOk(t) && n < |t.nodes| && CodesKnown(t.nodes, n, codes)
    ensures ParentsBefore(t, PreorderFrom(t, n, codes, j), n)
    decreases |t.nodes| - n, 0, |codes| - j
  {
    hide TreeOk; hide ParentsBefore; hide CodesKnown;
    if j < |codes| {
      KnownAt(t, n, codes, j);
      ChildKnown(t, n, codes[j]);
      var m := t.nodes[n].children[codes[j]];
      PreorderFromBefore(t, n, codes, j + 1);
      NoneBefore(t, n);
      if t.nodes[m].children != map[] {
        PreorderBefore(t, m);
        HeadBefore(t, m, Preorder(t, m)[1..], n);
        assert Preorder(t, m) == [m] + Preorder(t, m)[1..];
      }
      BothBefore(t, Preorder(t, m), PreorderFrom(t, n, codes, j + 1), n);
    } else {
      NoneBefore(t, n);
    }
  }

  lemma KnownAt(t: Tree, n: nat, codes: seq<nat>, j: nat)
    requires n < |t.nodes| && CodesKnown(t.nodes, n, codes) && j < |codes|
    ensures codes[j] in t.nodes[n].children
  {}

  lemma NoneBefore(t: Tree, n: nat)
    ensures ParentsBefore(t, [], n)
  {}

  // ---------- One node ----------

  lemma {:induction false} PlaceCodesUsed(nodes: seq<Node>, n: nat, base: int, codes: seq<nat>, owner: nat, r: Run)
    requires Fitting(nodes, n, base, codes, r) && r.s.used != []
    ensures var r' := PlaceCodes(nodes, n, base, codes, owner, r);
            r'.s.used != [] && r'.s.used[0] <= r.s.used[0] + |codes|
    decreases |codes|
  {
    if codes != [] {
      var k := |codes| - 1;
      assert codes == codes[..k] + [codes[k]];
      PlaceCodesUsed(nodes, n, base, codes[..k], owner, r);
    }
  }

  // When the queued slots suffice, the base is that of the entry found.
  lemma FoundBase(nodes: seq<Node>, n: nat, codes: seq<nat>, r: Run)
    requires KidsReady(nodes, n, codes, r) && Hunt(r.s, codes).Found?
    ensures var q := Hunt(r.s, codes);
            codes != [] && BaseFor(nodes, n, codes, r) == Choice(q.s, r.last, q.entry - MinCode(codes)) &&
            |q.s.check| == |r.s.check| && |q.s.used| == |r.s.used| > 0
  {
    CodesGiven(codes);
    HuntOk(r.s, r.last, r.top, codes);
    SizesOf(r.s, r.last, r.top, 0);
    hide Hunt; hide Sound; hide Fits; hide CodesKnown; hide ChildrenInside;
  }

  // Placing changes check and the counters, and the queues stay.
  lemma PlacedQueues(nodes: seq<Node>, n: nat, codes: seq<nat>, r: Run)
    requires KidsReady(nodes, n, codes, r) && Hunt(r.s, codes).Found?
    ensures var q, r' := Hunt(r.s, codes).s, PlaceKids(nodes, n, codes, r);
            r'.last == r.last && r'.s.chain == q.chain && r'.s.dense == q.dense && r'.s.fails == q.fails &&
            |r'.s.used| == |q.used| > 0 && r'.s.used[0] <= q.used[0] + |codes|
  {
    FoundBase(nodes, n, codes, r);
    ChoiceFits(nodes, n, codes, r);
    var c := BaseFor(nodes, n, codes, r);
    BasedSized(nodes, n, codes, r, c);
    hide Hunt; hide Sized; hide Fits; hide GoodCodes; hide CodesKnown; hide ChildrenInside; hide PlaceCodes;
    hide Fitting; hide FindBase;
    PlaceCodesSound(nodes, n, c.base, codes, r.slot[n], Based(r, n, c), c.base + MinCode(codes));
    PlaceCodesUsed(nodes, n, c.base, codes, r.slot[n], Based(r, n, c));
  }

  lemma FoundEvent(nodes: seq<Node>, n: nat, codes: seq<nat>, r: Run)
    requires KidsReady(nodes, n, codes, r) && Hunt(r.s, codes).Found?
    ensures var q, g := Hunt(r.s, codes), KidsPlacing(nodes, n, codes, r);
            codes != [] && g.n == n && g.codes == codes && g.base == q.entry - MinCode(codes) &&
            g.r.s.check == q.s.check && g.r.slot == r.slot && g.r' == PlaceKids(nodes, n, codes, r)
  {
    FoundBase(nodes, n, codes, r);
    ChoiceFits(nodes, n, codes, r);
    hide Hunt; hide Sized; hide Fits; hide GoodCodes; hide CodesKnown; hide ChildrenInside; hide PlaceKids;
    hide Fitting; hide FindBase;
  }

  lemma CheckAfter(nodes: seq<Node>, g: Placing, entry: nat)
    requires g.codes != [] && g.n < |nodes| && CodesKnown(nodes, g.n, g.codes) && PlacedAt(nodes, g)
    requires g.base == entry - MinCode(g.codes)
    ensures |g.r.slot| == |nodes| && Overwritten(g.r.s.check, g.r'.s.check, g.codes, entry, g.r.slot[g.n])
  {
    PlacedView(nodes, g, g.n);
    assert forall y :: 0 <= y < |g.r.s.check| ==>
        g.r'.s.check[y] == if y - g.base in g.codes then g.r.slot[g.n] else g.r.s.check[y];
  }

  // The children are placed at the entry that was found.
  lemma FoundPlaces(nodes: seq<Node>, n: nat, codes: seq<nat>, r: Run)
    requires KidsReady(nodes, n, codes, r) && Hunt(r.s, codes).Found?
    ensures var q, r' := Hunt(r.s, codes), PlaceKids(nodes, n, codes, r);
            codes != [] && PlacedThere(q.s, r'.s, codes, q.entry, r.slot[n])
  {
    FoundBase(nodes, n, codes, r);
    FoundEvent(nodes, n, codes, r);
    KidsPlaced(nodes, n, codes, r);
    PlacedQueues(nodes, n, codes, r);
    ReadyCodes(nodes, n, codes, r);
    hide Hunt; hide Sized; hide Fits; hide GoodCodes; hide CodesKnown; hide ChildrenInside; hide PlaceKids;
    hide Fitting; hide FindBase; hide PlacedAt; hide Grew; hide KidsPlacing; hide BaseFor;
    hide Overwritten;
    CheckAfter(nodes, KidsPlacing(nodes, n, codes, r), Hunt(r.s, codes).entry);
  }

  // ---------- The whole pass ----------

  // The code lists of the first i nodes.
  ghost function Lists(t: Tree, ns: seq<nat>, i: nat): seq<seq<nat>>
    requires AllNodes(t, ns) && i <= |ns|
  {
    seq(i, j requires 0 <= j < i => CodesOf(t, ns[j]))
  }

  ghost predicate ChildrenSlotted(t: Tree, slot: seq<nat>, n: nat)
    requires n < |t.nodes|
  {
    forall c :: c in t.nodes[n].children ==>
      t.nodes[n].children[c] < |slot| && slot[t.nodes[n].children[c]] >= 1
  }

  // The slot of the smallest code of node number i.
  ghost function EntryAt(t: Tree, start: Run, ns: seq<nat>, i: nat): int
    requires AllNodes(t, ns) && i < |ns| && CodesOf(t, ns[i]) != []
  {
    GivenAt(t, start, ns, i) + MinCode(CodesOf(t, ns[i]))
  }

  // It lies within the bounds.
  ghost predicate EntryBounded(t: Tree, start: Run, ns: seq<nat>, i: nat)
    requires AllNodes(t, ns) && i < |ns|
  {
    CodesOf(t, ns[i]) != [] && NoneEmpty(Lists(t, ns, i)) &&
    Lowest(Lists(t, ns, i)) <= EntryAt(t, start, ns, i) <= Highest(Lists(t, ns, i), CodesOf(t, ns[i]))
  }

  // There is room for node number i.
  ghost predicate RoomAt(t: Tree, ns: seq<nat>, i: nat)
    requires AllNodes(t, ns) && i < |ns|
  {
    NoneEmpty(Lists(t, ns, i)) && CodesOf(t, ns[i]) != [] && Room(Lists(t, ns, i), CodesOf(t, ns[i]))
  }

  // The list is the pass through a trie.
  ghost predicate Route(t: Tree, ns: seq<nat>) {
    TreeOk(t) && AllNodes(t, ns) &&
    forall i :: 0 <= i < |ns| ==> t.nodes[ns[i]].children != map[] && (ns[i] == 0 || FollowsParent(t, ns, i))
  }

  ghost predicate FollowsParent(t: Tree, ns: seq<nat>, i: nat)
    requires i < |ns|
  {
    0 < ns[i] < |t.parents| && exists j :: 0 <= j < i && ns[j] == t.parents[ns[i]]
  }

  lemma RouteAll(t: Tree, ns: seq<nat>)
    requires Route(t, ns)
    ensures AllNodes(t, ns)
  {}

  lemma PreorderRoute(t: Tree)
    requires TreeOk(t)
    ensures |t.nodes| > 0 && Route(t, Preorder(t, 0))
  {
    RootThere(t);
    PreorderNodes(t, 0);
    hide TreeOk;
    var ns := Preorder(t, 0);
    if t.nodes[0].children != map[] {
      PreorderBefore(t, 0);
      forall i | 0 <= i < |ns| ensures t.nodes[ns[i]].children != map[] && (ns[i] == 0 || FollowsParent(t, ns, i)) {
        if i > 0 {
          assert ParentBefore(t, ns[1..], i - 1, 0);
          assert ns[1..][i - 1] == ns[i];
          if t.parents[ns[i]] == 0 {
            assert ns[0] == t.parents[ns[i]];
          } else {
            var j :| 0 <= j < i - 1 && ns[1..][j] == t.parents[ns[i]];
            assert ns[j + 1] == t.parents[ns[i]];
          }
        }
      }
    }
  }

  // What holds after the first i nodes.
  ghost predicate Arrived(t: Tree, start: Run, ns: seq<nat>, i: nat, r: nat, es: seq<nat>) {
    AllNodes(t, ns) && i <= |ns| && |es| == i &&
    var q := Pass(t, start, ns, i);
    Sized(t.nodes, q, 0) && q.last == start.last && |q.slot| == |t.nodes| > 0 && q.slot[0] >= 1 &&
    (forall j :: 0 <= j < i ==> ChildrenSlotted(t, q.slot, ns[j])) && Front(q.s, q.last, r, Lists(t, ns, i), es) &&
    forall j :: 0 <= j < i ==> EntryBounded(t, start, ns, j)
  }

  // The next node has a slot, so its children can be placed.
  lemma NextReady(t: Tree, start: Run, ns: seq<nat>, i: nat, r: nat, es: seq<nat>)
    requires Route(t, ns) && Arrived(t, start, ns, i, r, es) && i < |ns|
    ensures KidsReady(t.nodes, ns[i], CodesOf(t, ns[i]), Pass(t, start, ns, i)) && CodesOf(t, ns[i]) != []
  {
    hide TreeOk; hide Front; hide Sized; hide EntryBounded; hide Pass; hide SortedCodes;
    var n, q, codes := ns[i], Pass(t, start, ns, i), CodesOf(t, ns[i]);
    if n != 0 {
      assert FollowsParent(t, ns, i);
      var j :| 0 <= j < i && ns[j] == t.parents[n];
      ParentKnown(t, n);
      assert ChildrenSlotted(t, q.slot, ns[j]);
    }
    NodeCodes(t, n);
  }

  lemma NodeCodes(t: Tree, n: nat)
    requires TreeOk(t) && n < |t.nodes| && t.nodes[n].children != map[]
    ensures GoodCodes(CodesOf(t, n)) && CodesKnown(t.nodes, n, CodesOf(t, n)) && ChildrenInside(t.nodes, n)
  {
    hide TreeOk; hide SortedCodes;
    var codes := CodesOf(t, n);
    SortedKnown(t, n);
    SortedOrders(t.nodes[n].children.Keys);
    var c :| c in t.nodes[n].children.Keys;
    assert c in codes;
    forall j | 0 <= j < |codes| ensures 1 <= codes[j] <= MAX_CODE { ChildKnown(t, n, codes[j]); }
    forall c | c in t.nodes[n].children
      ensures t.nodes[n].children[c] < |t.nodes| && t.nodes[t.nodes[n].children[c]].code == c
    {
      ChildKnown(t, n, c);
    }
  }

  // The children of node number i get their entry in the front, and the next slots follow.
  lemma NextArrives(t: Tree, start: Run, ns: seq<nat>, i: nat, r: nat, es: seq<nat>) returns (x: nat)
    requires Route(t, ns) && Arrived(t, start, ns, i, r, es) && i < |ns| && RoomAt(t, ns, i)
    ensures Arrived(t, start, ns, i + 1, x + 1, es + [x])
  {
    hide TreeOk; hide Front; hide Sized; hide EntryBounded; hide SortedCodes; hide Room; hide Lists; hide KidsReady;
    hide PlaceKids; hide Hunt; hide Pass; hide ChildrenSlotted; hide Reach; hide Highest; hide Lined; hide PlacedThere;
    NextReady(t, start, ns, i, r, es);
    var n, q, codes := ns[i], Pass(t, start, ns, i), CodesOf(t, ns[i]);
    var lists := Lists(t, ns, i);
    NodeCodes(t, n);
    x := NextEntry(q.s, q.last, r, lists, es, codes);
    FoundPlaces(t.nodes, n, codes, q);
    PlacedQueues(t.nodes, n, codes, q);
    PassNext(t, start, ns, i);
    var q' := Pass(t, start, ns, i + 1);
    SlotsNext(t, ns[i], codes, q);
    BelowLimit(lists, codes);
    NextFront(q.s, q.last, r, lists, es, codes, q'.s, x, q.slot[n]);
    ListsNext(t, ns, i);
    EntryFound(t, start, ns, i, x);
    SlottedKept(t, start, ns, i, r, es);
  }

  lemma BelowLimit(lists: seq<seq<nat>>, codes: seq<nat>)
    requires NoneEmpty(lists) && codes != [] && Room(lists, codes)
    ensures Highest(lists, codes) < LIMIT
  {}

  lemma PassNext(t: Tree, start: Run, ns: seq<nat>, i: nat)
    requires AllNodes(t, ns) && i < |ns| && KidsReady(t.nodes, ns[i], CodesOf(t, ns[i]), Pass(t, start, ns, i))
    ensures Pass(t, start, ns, i + 1) == PlaceKids(t.nodes, ns[i], CodesOf(t, ns[i]), Pass(t, start, ns, i))
    ensures GivenAt(t, start, ns, i) == BaseFor(t.nodes, ns[i], CodesOf(t, ns[i]), Pass(t, start, ns, i)).base
  {
    hide KidsReady; hide PlaceKids; hide BaseFor;
  }

  lemma ListsNext(t: Tree, ns: seq<nat>, i: nat)
    requires AllNodes(t, ns) && i < |ns|
    ensures Lists(t, ns, i + 1) == Lists(t, ns, i) + [CodesOf(t, ns[i])]
  {
    hide CodesOf;
  }

  // Placing keeps the slots and adds those of the children.
  lemma SlotsNext(t: Tree, n: nat, codes: seq<nat>, q: Run)
    requires KidsReady(t.nodes, n, codes, q) && |q.slot| == |t.nodes| > 0 && q.slot[0] >= 1 && codes == CodesOf(t, n)
    ensures var q' := PlaceKids(t.nodes, n, codes, q);
            Sized(t.nodes, q', 0) && |q'.slot| == |t.nodes| && q'.slot[0] >= 1 && ChildrenSlotted(t, q'.slot, n) &&
            forall m :: 0 <= m < |q.slot| && q.slot[m] >= 1 ==> q'.slot[m] >= 1
  {
    KidsSound(t.nodes, n, codes, q);
    SlotsGrow(t.nodes, n, codes, q);
    hide KidsReady; hide PlaceKids; hide Sized; hide SortedCodes; hide ChildrenSlotted;
    AllCodesSlotted(t, n, PlaceKids(t.nodes, n, codes, q).slot);
  }

  lemma AllCodesSlotted(t: Tree, n: nat, slot: seq<nat>)
    requires n < |t.nodes| == |slot|
    requires forall c :: c in CodesOf(t, n) && c in t.nodes[n].children ==>
               t.nodes[n].children[c] < |slot| && slot[t.nodes[n].children[c]] >= 1
    ensures ChildrenSlotted(t, slot, n)
  {
    hide SortedCodes;
    SortedOrders(t.nodes[n].children.Keys);
    forall c | c in t.nodes[n].children
      ensures t.nodes[n].children[c] < |slot| && slot[t.nodes[n].children[c]] >= 1
    {
      assert c in t.nodes[n].children.Keys;
    }
  }

  lemma StillSlotted(t: Tree, slot: seq<nat>, slot': seq<nat>, n: nat)
    requires n < |t.nodes| && ChildrenSlotted(t, slot, n) && |slot'| == |slot|
    requires forall m :: 0 <= m < |slot| && slot[m] >= 1 ==> slot'[m] >= 1
    ensures ChildrenSlotted(t, slot', n)
  {}

  lemma SlottedKept(t: Tree, start: Run, ns: seq<nat>, i: nat, r: nat, es: seq<nat>)
    requires Route(t, ns) && Arrived(t, start, ns, i, r, es) && i < |ns|
    ensures forall j :: 0 <= j < i + 1 ==> ChildrenSlotted(t, Pass(t, start, ns, i + 1).slot, ns[j])
  {
    hide TreeOk; hide Front; hide Sized; hide EntryBounded; hide CodesOf; hide Lists; hide KidsReady; hide PlaceKids;
    hide Pass; hide ChildrenSlotted;
    NextReady(t, start, ns, i, r, es);
    PassNext(t, start, ns, i);
    SlotsNext(t, ns[i], CodesOf(t, ns[i]), Pass(t, start, ns, i));
    forall j | 0 <= j < i + 1 ensures ChildrenSlotted(t, Pass(t, start, ns, i + 1).slot, ns[j]) {
      if j < i { StillSlotted(t, Pass(t, start, ns, i).slot, Pass(t, start, ns, i + 1).slot, ns[j]); }
    }
  }

  lemma EntryFound(t: Tree, start: Run, ns: seq<nat>, i: nat, x: nat)
    requires AllNodes(t, ns) && i < |ns| && RoomAt(t, ns, i)
    requires KidsReady(t.nodes, ns[i], CodesOf(t, ns[i]), Pass(t, start, ns, i))
    requires var q := Hunt(Pass(t, start, ns, i).s, CodesOf(t, ns[i])); q.Found? && q.entry == x
    requires Lowest(Lists(t, ns, i)) <= x <= Highest(Lists(t, ns, i), CodesOf(t, ns[i]))
    ensures EntryBounded(t, start, ns, i)
  {
    hide Hunt; hide KidsReady; hide Highest; hide SortedCodes; hide Lists; hide Pass; hide BaseFor;
    FoundBase(t.nodes, ns[i], CodesOf(t, ns[i]), Pass(t, start, ns, i));
    PassNext(t, start, ns, i);
  }

  lemma ListsFull(t: Tree, ns: seq<nat>, i: nat)
    requires Route(t, ns) && i <= |ns|
    ensures NoneEmpty(Lists(t, ns, i))
  {
    hide TreeOk; hide SortedCodes;
    var lists := Lists(t, ns, i);
    forall j | 0 <= j < |lists| ensures lists[j] != [] { NodeCodes(t, ns[j]); }
  }

  // Room for a list means room for the one before.
  lemma RoomLess(lists: seq<seq<nat>>, last: seq<nat>, codes: seq<nat>)
    requires NoneEmpty(lists) && last != [] && codes != [] && NoneEmpty(lists + [last]) && Room(lists + [last], codes)
    ensures Room(lists, last)
  {
    hide Clashes; hide Near; hide Reach; hide Taking;
    ReachSnoc(lists, last);
  }

  // Room for a node means room for those before it.
  lemma RoomBefore(t: Tree, ns: seq<nat>, i: nat)
    requires Route(t, ns) && 0 < i < |ns| && RoomAt(t, ns, i)
    ensures RoomAt(t, ns, i - 1)
  {
    hide Room; hide CodesOf; hide Lists; hide Route; hide AllNodes;
    RouteAll(t, ns);
    ListsNext(t, ns, i - 1);
    ListsFull(t, ns, i - 1);
    RouteCodes(t, ns, i - 1);
    RoomLess(Lists(t, ns, i - 1), CodesOf(t, ns[i - 1]), CodesOf(t, ns[i]));
  }

  lemma {:induction false} Arrive(t: Tree, last: nat, ns: seq<nat>, i: nat) returns (r: nat, es: seq<nat>)
    requires Route(t, ns) && |t.nodes| > 0 && ChainEnd(last) && i <= |ns| && (i > 0 ==> RoomAt(t, ns, i - 1))
    ensures Arrived(t, StartRun(t, last), ns, i, r, es)
  {
    hide Route; hide Arrived; hide RoomAt;
    if i == 0 {
      r, es := 1, [];
      StartArrived(t, last, ns);
    } else {
      if i > 1 { RoomBefore(t, ns, i - 1); }
      r, es := Arrive(t, last, ns, i - 1);
      var x := NextArrives(t, StartRun(t, last), ns, i - 1, r, es);
      r, es := x + 1, es + [x];
    }
  }

  lemma StartFront(last: nat)
    requires ChainEnd(last)
    ensures Front(StartSlots(last), last, 1, [], [])
  {
    hide StartSlots; hide Sound; hide Front; hide Untouched;
    StartSound(last);
    assert last % BLOCK == 605;
    FrontStart(StartSlots(last), last);
  }

  lemma StartArrived(t: Tree, last: nat, ns: seq<nat>)
    requires Route(t, ns) && |t.nodes| > 0 && ChainEnd(last)
    ensures Arrived(t, StartRun(t, last), ns, 0, 1, [])
  {
    hide StartSlots; hide Sized; hide Clean; hide Front; hide SlotsOk; hide Toured; hide TreeOk; hide CodesOf;
    StartClean(t, last);
    CleanSized(t, StartRun(t, last));
    StartFront(last);
    assert Lists(t, ns, 0) == [];
  }

  lemma CleanSized(t: Tree, r: Run)
    requires Clean(t, r, {}, {0})
    ensures Sized(t.nodes, r, 0)
  {}

  // While there is room, the entry of a node lies within its bounds.
  lemma EntriesBounded(t: Tree, last: nat, i: nat)
    requires TreeOk(t) && ChainEnd(last) && i < |Preorder(t, 0)|
    requires |t.nodes| > 0 && AllNodes(t, Preorder(t, 0)) && RoomAt(t, Preorder(t, 0), i)
    ensures EntryBounded(t, StartRun(t, last), Preorder(t, 0), i)
  {
    hide RoomAt; hide EntryBounded; hide Front; hide Sized;
    PreorderRoute(t);
    var r, es := Arrive(t, last, Preorder(t, 0), i + 1);
  }

  // ---------- What the bounds decide ----------

  // Node number i has two or more children.
  ghost predicate Forks(t: Tree, ns: seq<nat>, i: nat)
    requires AllNodes(t, ns) && i < |ns|
  {
    |t.nodes[ns[i]].children| >= 2
  }

  // The least code of node number i is outside its bounds, so its base cannot be 0.
  ghost predicate Spared(t: Tree, ns: seq<nat>, i: nat)
    requires AllNodes(t, ns) && i < |ns|
  {
    RoomAt(t, ns, i) &&
    var min := MinCode(CodesOf(t, ns[i]));
    min < Lowest(Lists(t, ns, i)) || Highest(Lists(t, ns, i), CodesOf(t, ns[i])) < min
  }

  // The bounds leave only the least code itself as the entry, so the base is 0.
  ghost predicate Struck(t: Tree, ns: seq<nat>, i: nat)
    requires AllNodes(t, ns) && i < |ns|
  {
    RoomAt(t, ns, i) &&
    Lowest(Lists(t, ns, i)) == Highest(Lists(t, ns, i), CodesOf(t, ns[i])) == MinCode(CodesOf(t, ns[i]))
  }

  // If every fork is spared, every node is placed once.
  lemma SparedOnce(t: Tree, last: nat)
    requires TreeOk(t) && ChainEnd(last) && |t.nodes| > 0 && AllNodes(t, Preorder(t, 0))
    requires forall i :: 0 <= i < |Preorder(t, 0)| && Forks(t, Preorder(t, 0), i) ==> Spared(t, Preorder(t, 0), i)
    ensures Once(t, last)
  {
    hide TreeOk; hide Preorder; hide RoomAt; hide Lists; hide Highest; hide GivenAt; hide SortedCodes;
    var ns := Preorder(t, 0);
    forall i | 0 <= i < |ns| && |t.nodes[ns[i]].children| >= 2 ensures GivenAt(t, StartRun(t, last), ns, i) != 0 {
      assert Forks(t, ns, i);
      EntriesBounded(t, last, i);
    }
  }

  // If a fork is struck, it is placed twice.
  lemma StruckTwice(t: Tree, last: nat, i: nat)
    requires TreeOk(t) && ChainEnd(last) && |t.nodes| > 0 && AllNodes(t, Preorder(t, 0)) && i < |Preorder(t, 0)|
    requires Forks(t, Preorder(t, 0), i) && Struck(t, Preorder(t, 0), i)
    ensures !Once(t, last)
  {
    hide TreeOk; hide Preorder; hide RoomAt; hide Lists; hide Highest; hide GivenAt; hide SortedCodes;
    EntriesBounded(t, last, i);
  }

  // ---------- The first fork ----------

  // The first i nodes have one child each.
  ghost predicate Straight(t: Tree, ns: seq<nat>, i: nat)
    requires AllNodes(t, ns) && i <= |ns|
  {
    forall j :: 0 <= j < i ==> |t.nodes[ns[j]].children| == 1
  }

  lemma OneCode(t: Tree, n: nat)
    requires n < |t.nodes| && |t.nodes[n].children| == 1
    ensures |CodesOf(t, n)| == 1 && Offsets(CodesOf(t, n)) == {}
  {
    hide SortedCodes;
    SortedOrders(t.nodes[n].children.Keys);
  }

  // Single children take the slots 2, 3 and so on.
  lemma {:induction false} StraightReach(t: Tree, ns: seq<nat>, i: nat, codes: seq<nat>)
    requires Route(t, ns) && i <= |ns| && Straight(t, ns, i) && codes != []
    ensures NoneEmpty(Lists(t, ns, i)) && Reach(Lists(t, ns, i)) == 2 + i && Clashes(Lists(t, ns, i), codes) == {}
    ensures Taking(Lists(t, ns, i)) == 1 + i
    decreases i
  {
    hide TreeOk; hide SortedCodes;
    ListsFull(t, ns, i);
    var lists := Lists(t, ns, i);
    forall j | 0 <= j < i ensures Offsets(lists[j]) == {} { OneCode(t, ns[j]); }
    NoOffsets(lists, codes);
    if i > 0 {
      NodeCodes(t, ns[i - 1]);
      StraightReach(t, ns, i - 1, CodesOf(t, ns[i - 1]));
      ListsNext(t, ns, i - 1);
      OneCode(t, ns[i - 1]);
      ReachSnoc(Lists(t, ns, i - 1), CodesOf(t, ns[i - 1]));
      assert Near(CodesOf(t, ns[i - 1])) == {};
    } else {
      assert lists == [];
    }
  }

  lemma NoOffsets(lists: seq<seq<nat>>, codes: seq<nat>)
    requires NoneEmpty(lists) && codes != [] && forall j :: 0 <= j < |lists| ==> Offsets(lists[j]) == {}
    ensures Clashes(lists, codes) == {}
  {
    hide Offsets;
  }

  // The first fork gets the slot that is two more than its number.
  lemma FirstForkBounds(t: Tree, ns: seq<nat>, i: nat)
    requires Route(t, ns) && i < |ns| && Straight(t, ns, i) && i + 2 < LIMIT
    ensures RoomAt(t, ns, i)
    ensures Lowest(Lists(t, ns, i)) == Highest(Lists(t, ns, i), CodesOf(t, ns[i])) == i + 2
  {
    hide TreeOk; hide SortedCodes; hide Clashes; hide Reach;
    NodeCodes(t, ns[i]);
    StraightReach(t, ns, i, CodesOf(t, ns[i]));
  }

  // If the least code of the first fork is two more than its number, it is placed twice.
  lemma FirstForkTwice(t: Tree, last: nat, i: nat)
    requires TreeOk(t) && ChainEnd(last) && |t.nodes| > 0 && AllNodes(t, Preorder(t, 0)) && i < |Preorder(t, 0)|
    requires Straight(t, Preorder(t, 0), i) && Forks(t, Preorder(t, 0), i) && i + 2 < LIMIT
    requires CodesOf(t, Preorder(t, 0)[i]) != [] && MinCode(CodesOf(t, Preorder(t, 0)[i])) == i + 2
    ensures !Once(t, last)
  {
    hide TreeOk; hide Preorder; hide RoomAt; hide SortedCodes; hide Lists; hide Highest; hide Route; hide Once;
    PreorderRoute(t);
    FirstForkBounds(t, Preorder(t, 0), i);
    StruckTwice(t, last, i);
  }

  // If there is just one fork, this is the only way to go wrong.
  lemma OnlyForkOnce(t: Tree, last: nat, i: nat)
    requires TreeOk(t) && ChainEnd(last) && |t.nodes| > 0 && AllNodes(t, Preorder(t, 0)) && i < |Preorder(t, 0)|
    requires Straight(t, Preorder(t, 0), i) && Forks(t, Preorder(t, 0), i) && i + 2 < LIMIT
    requires forall j :: i < j < |Preorder(t, 0)| ==> !Forks(t, Preorder(t, 0), j)
    ensures CodesOf(t, Preorder(t, 0)[i]) != []
    ensures Once(t, last) <==> MinCode(CodesOf(t, Preorder(t, 0)[i])) != i + 2
  {
    hide TreeOk; hide Preorder; hide RoomAt; hide SortedCodes; hide Lists; hide Highest; hide Route; hide Once;
    PreorderRoute(t);
    var ns := Preorder(t, 0);
    FirstForkBounds(t, ns, i);
    RouteCodes(t, ns, i);
    if MinCode(CodesOf(t, ns[i])) == i + 2 {
      StruckTwice(t, last, i);
    } else {
      forall j | 0 <= j < |ns| && Forks(t, ns, j) ensures Spared(t, ns, j) {
        assert j == i;
      }
      SparedOnce(t, last);
    }
  }

  lemma RouteCodes(t: Tree, ns: seq<nat>, i: nat)
    requires Route(t, ns) && i < |ns|
    ensures CodesOf(t, ns[i]) != []
  {
    hide TreeOk; hide SortedCodes;
    NodeCodes(t, ns[i]);
  }

  // Without forks nothing can go wrong.
  lemma NoForkOnce(t: Tree, last: nat)
    requires TreeOk(t) && ChainEnd(last) && forall n :: 0 <= n < |t.nodes| ==> |t.nodes[n].children| < 2
    ensures Once(t, last)
  {
    hide TreeOk; hide Preorder; hide GivenAt;
    PreorderRoute(t);
  }
}