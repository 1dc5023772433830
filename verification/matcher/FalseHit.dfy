// What a search does after a build that placed children twice: the patterns of the control
// characters 2 and 3. Their trie is followed through the whole placing pass.
module FalseHit {
  import opened Utf8
  import opened Automaton
  import opened PatternTrie
  import opened FailLinks
  import opened Allocation
  import opened Placing
  import opened Tour
  import opened Running
  import opened OncePass
  import opened Counting
  import opened CountedPass
  import opened LinkedMachine
  import opened Searching
  import opened ZeroBase

  // ---------- The trie ----------

  // The root has two leaves, and nothing else is there.
  ghost predicate TwoLeaves(t: Tree) {
    TreeOk(t) && |t.nodes| == 3 && t.nodes[0].children.Keys == {2, 3} && LeafAt(t, 1) && LeafAt(t, 2)
  }

  ghost predicate LeafAt(t: Tree, n: nat)
    requires n < |t.nodes|
  {
    t.nodes[n].children == map[] && t.nodes[n].matched == 1 && t.nodes[n].fail == 0
  }

  const CONTROLS: set<Path> := {[2], [3]}

  lemma LeafPath(p: Plan, n: nat)
    requires LinkedTrie(p, CONTROLS) && 0 < n < |p.nodes|
    ensures |p.paths| == |p.nodes| && (p.paths[n] == [2] || p.paths[n] == [3])
  {
    RootAlone(p, n);
    hide Linked; hide LinkedTrie; hide TreeOk;
    var x :| x in CONTROLS && p.paths[n] <= x;
    assert |p.paths[n]| == 1;
    assert p.paths[n] == x;
  }

  lemma RootAlone(p: Plan, n: nat)
    requires LinkedTrie(p, CONTROLS) && 0 < n < |p.nodes|
    ensures |p.paths| == |p.nodes| && p.paths[n] != [] && PrefixOfOne(p.paths[n], CONTROLS)
  {
    hide TreeOk; hide PathSet; hide PrefixOfOne; hide Final;
    TrieParts(p, CONTROLS);
    assert p.paths[0] != p.paths[n];
  }

  lemma LeafOutput(w: Path, z: nat)
    requires w in CONTROLS && IsOutput(CONTROLS, w, z)
    ensures z == 1
  {
    OneCodeSize(2);
    OneCodeSize(3);
    assert IsSuffix(w, w);
  }

  lemma OneCodeSize(c: nat)
    requires c < 0x80
    ensures Size([c]) == 1
  {
    assert [c][..0] == [];
  }

  lemma LeafFail(p: Plan, n: nat)
    requires LinkedTrie(p, CONTROLS) && 0 < n < |p.nodes|
    ensures p.nodes[n].fail == 0
  {
    TrieParts(p, CONTROLS);
    assert Final(p.nodes, p.paths, CONTROLS, n);
    LeafPath(p, n);
    assert p.paths[n][1..] == [];
    var f := p.nodes[n].fail;
    assert p.paths[f] == [];
  }

  lemma AfterControls(w: Path)
    requires w in CONTROLS
    ensures NextCodes(CONTROLS, w) == {}
  {}

  lemma FirstControls()
    ensures NextCodes(CONTROLS, []) == {2, 3}
  {
    assert [2] in CONTROLS && [2][0] == 2 && [3] in CONTROLS && [3][0] == 3;
  }

  lemma FinalOutput(p: Plan, P: set<Path>, n: nat)
    requires LinkedTrie(p, P) && n < |p.nodes|
    ensures |p.paths| == |p.nodes| && IsOutput(P, p.paths[n], p.nodes[n].matched)
  {
    assert Final(p.nodes, p.paths, P, n);
  }

  lemma LeafBelow(p: Plan, n: nat)
    requires LinkedTrie(p, CONTROLS) && 0 < n < |p.nodes|
    ensures LeafAt(Shape(p), n)
  {
    hide LinkedTrie; hide NextCodes; hide IsOutput;
    LeafPath(p, n);
    LeafFail(p, n);
    ChildrenFollow(p, CONTROLS, n);
    FinalOutput(p, CONTROLS, n);
    LeafOutput(p.paths[n], p.nodes[n].matched);
    AfterControls(p.paths[n]);
  }

  lemma RootAbove(p: Plan)
    requires LinkedTrie(p, CONTROLS)
    ensures |p.nodes| == |p.paths| > 0 && p.nodes[0].children.Keys == {2, 3}
  {
    hide LinkedTrie; hide Linked; hide TreeOk; hide NextCodes;
    TrieParts(p, CONTROLS);
    ChildrenFollow(p, CONTROLS, 0);
    FirstControls();
  }

  lemma TheTrie(p: Plan)
    requires LinkedTrie(p, CONTROLS)
    ensures TwoLeaves(Shape(p))
  {
    TrieParts(p, CONTROLS);
    RootAbove(p);
    ThreeNodes(p);
    LeafBelow(p, 1);
    LeafBelow(p, 2);
  }

  lemma ThreeNodes(p: Plan)
    requires LinkedTrie(p, CONTROLS)
    ensures |p.nodes| == 3
  {
    TrieParts(p, CONTROLS);
    RootAbove(p);
    assert 2 in p.nodes[0].children && 3 in p.nodes[0].children;
    ChildPath(p.nodes, p.paths, p.parents, 0, 2);
    ChildPath(p.nodes, p.paths, p.parents, 0, 3);
    assert p.nodes[0].children[2] != p.nodes[0].children[3];
    assert |p.nodes| >= 3;
    if |p.nodes| > 3 {
      LeafPath(p, 1);
      LeafPath(p, 2);
      LeafPath(p, 3);
      assert false;
    }
  }

  // ---------- The arrays ----------

  // The first slots of the arrays: the root's base, and the slots up to high owned by the root.
  // The leaves have the last two of these.
  ghost predicate Picture(t: Tree, r: Run, root: int, high: nat) {
    TwoLeaves(t) && |r.base| == |r.s.check| == |r.output| >= 8 && |r.slot| == 3 && r.slot[0] == 1 &&
    (forall x :: 0 <= x < 8 ==> SlotPicture(r, root, high, x)) &&
    (high > 1 ==> LeafSlots(t, r.slot, high))
  }

  // The leaves have the slots before high and at high.
  ghost predicate LeafSlots(t: Tree, slot: seq<nat>, high: nat) {
    TwoLeaves(t) && 2 in t.nodes[0].children && 3 in t.nodes[0].children &&
    var a, b := t.nodes[0].children[2], t.nodes[0].children[3];
    a < |slot| && b < |slot| && slot[a] == high - 1 && slot[b] == high
  }

  ghost predicate SlotPicture(r: Run, root: int, high: nat, x: nat)
    requires x < |r.base| == |r.s.check| == |r.output|
  {
    r.base[x] == (if x == 1 then root else 0) && r.s.check[x] == (if 1 <= x <= high then 1 else 0) &&
    r.output[x] == if 2 <= x <= high then 1 else 0
  }

  lemma StartPicture(t: Tree, last: nat)
    requires TwoLeaves(t) && ChainEnd(last)
    ensures Picture(t, StartRun(t, last), 0, 1)
  {
    assert last + MAX_CODE >= 8;
  }

  // The codes of the two leaves, each once or twice.
  ghost predicate LeafCodes(codes: seq<nat>) {
    codes == [2, 3] || codes == [2, 2, 3, 3]
  }

  lemma LeafMin(codes: seq<nat>)
    requires LeafCodes(codes)
    ensures GoodCodes(codes) && MinCode(codes) == 2 && Offsets(codes) == {1}
    ensures forall c :: c in codes <==> c == 2 || c == 3
  {
    MinIs(codes, 2);
    hide MinCode;
    assert 3 in codes && 2 in codes;
    assert forall x :: x in Offsets(codes) ==> x == 1;
    assert 3 - 2 in Offsets(codes);
  }

  lemma LeafNodes(t: Tree)
    requires TwoLeaves(t)
    ensures var a, b := t.nodes[0].children[2], t.nodes[0].children[3];
            1 <= a <= 2 && 1 <= b <= 2 && a != b && t.nodes[a].code == 2 && t.nodes[b].code == 3
  {
    assert 2 in t.nodes[0].children.Keys && 3 in t.nodes[0].children.Keys;
    hide TreeOk;
    ChildKnown(t, 0, 2);
    ChildKnown(t, 0, 3);
  }

  // The event places the leaves in the slots after high.
  ghost predicate LeavesPlaced(t: Tree, g: Placing, high: nat) {
    TwoLeaves(t) && g.n == 0 && (forall c :: c in g.codes <==> c == 2 || c == 3) && g.base == high - 1 &&
    CodesKnown(t.nodes, 0, g.codes) && PlacedAt(t.nodes, g)
  }

  lemma LeafOutputAt(t: Tree, g: Placing, high: nat, x: nat)
    requires LeavesPlaced(t, g, high) && x < |g.r.output| == |g.r'.output| && OutputAt(t.nodes, g, x)
    ensures g.r'.output[x] == if x == high + 1 || x == high + 2 then 1 else g.r.output[x]
  {
    LeafNodes(t);
  }

  lemma PictureSlot(t: Tree, g: Placing, root: int, high: nat, x: nat)
    requires LeavesPlaced(t, g, high) && x < |g.r.base| == |g.r.s.check| == |g.r.output|
    requires SlotPicture(g.r, root, high, x) && high >= 1 && |g.r.slot| > 0 && g.r.slot[0] == 1
    ensures |g.r'.base| == |g.r'.s.check| == |g.r'.output| == |g.r.base|
    ensures SlotPicture(g.r', high - 1, high + 2, x)
  {
    hide TreeOk; hide PlacedAt; hide CodesKnown; hide OutputAt;
    PlacedView(t.nodes, g, 0);
    CheckView(t.nodes, g, x);
    LeafOutputAt(t, g, high, x);
  }

  lemma PictureLeaves(t: Tree, g: Placing, high: nat)
    requires LeavesPlaced(t, g, high) && |g.r.slot| == 3 && g.r.slot[0] == 1
    ensures |g.r'.slot| == 3 && g.r'.slot[0] == 1
    ensures LeafSlots(t, g.r'.slot, high + 2)
  {
    hide TreeOk; hide PlacedAt; hide CodesKnown; hide OutputAt;
    LeafNodes(t);
    var a, b := t.nodes[0].children[2], t.nodes[0].children[3];
    RootCode(t);
    PlacedView(t.nodes, g, 0);
    PlacedView(t.nodes, g, a);
    PlacedView(t.nodes, g, b);
  }

  // The root is no child of itself.
  lemma RootCode(t: Tree)
    requires TwoLeaves(t)
    ensures forall c :: c in t.nodes[0].children ==> t.nodes[0].children[c] != 0
  {
    forall c | c in t.nodes[0].children ensures t.nodes[0].children[c] != 0 { ChildKnown(t, 0, c); }
  }

  // The arrays before the event show what they showed before they grew.
  lemma PictureGrown(t: Tree, r: Run, w: Run, root: int, high: nat)
    requires Picture(t, r, root, high) && Grew(r, w)
    ensures Picture(t, w, root, high)
  {
    forall x | 0 <= x < 8 ensures SlotPicture(w, root, high, x) {
      assert SlotPicture(r, root, high, x);
    }
  }

  // Placing the leaves at the next two slots.
  lemma PicturePlaced(t: Tree, r: Run, codes: seq<nat>, root: int, high: nat)
    requires Picture(t, r, root, high) && KidsReady(t.nodes, 0, codes, r) && LeafCodes(codes) && high >= 1
    requires Hunt(r.s, codes).Found? && Hunt(r.s, codes).entry == high + 1
    ensures Picture(t, PlaceKids(t.nodes, 0, codes, r), high - 1, high + 2)
  {
    hide KidsReady; hide TreeOk; hide PlacedAt; hide Fits; hide Hunt; hide PlaceKids; hide KidsPlacing; hide CodesKnown;
    hide LeafCodes; hide MinCode; hide Grew; hide SlotPicture;
    LeafMin(codes);
    KidsPlaced(t.nodes, 0, codes, r);
    FoundEvent(t.nodes, 0, codes, r);
    ReadyCodes(t.nodes, 0, codes, r);
    var g := KidsPlacing(t.nodes, 0, codes, r);
    PictureGrown(t, r, g.r, root, high);
    PictureLeaves(t, g, high);
    PlacedView(t.nodes, g, 0);
    var root', high': nat := high - 1, high + 2;
    forall x | 0 <= x < 8 ensures SlotPicture(g.r', root', high', x) {
      PictureSlot(t, g, root, high, x);
    }
  }

  // ---------- The run ----------

  lemma RootNotStuck(t: Tree, r: Run, k: nat, order: seq<nat>)
    requires RunOk(t, r) && r.stack == [Entry(0, k, order)] && k < 2 && TwoLeaves(t) && BaseOf(r, 0) == 0
    ensures !Stuck(t, r) && HasNext(t, r)
  {
    hide Sized; hide StackOk; hide TreeOk; hide EntrySlots; hide LeafAt;
    assert |t.nodes[0].children| == |t.nodes[0].children.Keys| == 2;
    TopOk(t, r);
  }

  // The root's base is 0, so it places its leaves and moves on.
  lemma RootMoves(t: Tree, r: Run, k: nat, order: seq<nat>, codes: seq<nat>)
    requires RunOk(t, r) && r.stack == [Entry(0, k, order)] && k < 2 && TwoLeaves(t) && BaseOf(r, 0) == 0
    requires NewOrder(t, r) == codes && LeafCodes(codes)
    ensures !Stuck(t, r) && KidsReady(t.nodes, 0, codes, r) && codes[k] in t.nodes[0].children
    ensures Next(t, r) == PlaceKids(t.nodes, 0, codes, r).(stack :=
              [Entry(0, k + 1, codes), Entry(t.nodes[0].children[codes[k]], 0, [])])
  {
    hide PlaceKids; hide RunOk; hide KidsReady; hide Stuck; hide Next; hide BaseOf; hide HasNext; hide TreeOk;
    hide StackOk;
    hide NewOrder; hide Refill;
    RootNotStuck(t, r, k, order);
    NextPushes(t, r);
    NextPlaces(t, r);
    LeafOnTop(t, codes, k);
  }

  lemma PictureRoot(t: Tree, r: Run, root: int, high: nat)
    requires Picture(t, r, root, high)
    ensures TwoLeaves(t) && BaseOf(r, 0) == root
  {
    assert SlotPicture(r, root, high, 1);
  }

  // They go to the next two slots.
  lemma RootPlaces(t: Tree, r: Run, k: nat, order: seq<nat>, codes: seq<nat>, high: nat)
    requires RunOk(t, r) && r.stack == [Entry(0, k, order)] && k < 2 && Picture(t, r, 0, high) && high >= 1
    requires NewOrder(t, r) == codes && LeafCodes(codes)
    requires Hunt(r.s, codes).Found? && Hunt(r.s, codes).entry == high + 1
    ensures !Stuck(t, r) && Picture(t, Next(t, r), high - 1, high + 2)
  {
    hide PlaceKids; hide Hunt; hide RunOk; hide TwoLeaves; hide KidsReady; hide NewOrder; hide Stuck; hide LeafCodes;
    hide Picture; hide Next; hide BaseOf;
    PictureRoot(t, r, 0, high);
    RootMoves(t, r, k, order, codes);
    PicturePlaced(t, r, codes, 0, high);
    PictureRestack(t, PlaceKids(t.nodes, 0, codes, r), high - 1, high + 2, Next(t, r).stack);
  }

  lemma PictureRestack(t: Tree, r: Run, root: int, high: nat, stack: seq<Entry>)
    requires Picture(t, r, root, high)
    ensures Picture(t, r.(stack := stack), root, high)
  {
    forall x | 0 <= x < 8 ensures SlotPicture(r.(stack := stack), root, high, x) {
      assert SlotPicture(r, root, high, x);
    }
  }

  lemma LeafDone(t: Tree, n: nat, next: nat)
    requires TwoLeaves(t) && n < |t.nodes| && next <= |t.nodes[n].children| && (n != 0 || next == 2)
    ensures next == |t.nodes[n].children|
  {
    hide TreeOk;
    assert n == 1 ==> LeafAt(t, 1);
    assert n == 2 ==> LeafAt(t, 2);
    assert |t.nodes[0].children.Keys| == 2;
  }

  lemma LeafPops(t: Tree, r: Run)
    requires RunOk(t, r) && r.stack != [] && TwoLeaves(t) && (Top(r).node != 0 || Top(r).next == 2)
    ensures !Stuck(t, r) && Next(t, r) == r.(stack := r.stack[..|r.stack| - 1])
  {
    hide RunOk; hide TwoLeaves; hide Stuck; hide Next;
    TopInside(t, r);
    LeafDone(t, Top(r).node, Top(r).next);
  }

  lemma FirstOrder(t: Tree, r: Run)
    requires TwoLeaves(t) && r.stack != [] && Top(r) == Entry(0, 0, [])
    ensures NewOrder(t, r) == [2, 3]
  {
    SortedIs({2, 3}, [2, 3]);
    assert SortedCodes({2, 3}) == AddAll([], {2, 3});
  }

  lemma SecondOrder(t: Tree, r: Run)
    requires TwoLeaves(t) && r.stack != [] && Top(r) == Entry(0, 1, [2, 3])
    ensures NewOrder(t, r) == [2, 2, 3, 3]
  {
    SortedTwice();
  }

  lemma SortedTwice()
    ensures AddAll([2, 3], {2, 3}) == [2, 2, 3, 3]
  {
    hide AddAll;
    AddAllAscending([2, 3], {2, 3});
    assert multiset([2, 3]) + multiset({2, 3}) == multiset([2, 2, 3, 3]);
    AscendingUnique(AddAll([2, 3], {2, 3}), [2, 2, 3, 3]);
  }

  // The first time the leaves go to the slots 2 and 3.
  lemma FirstHunt(last: nat)
    requires ChainEnd(last)
    ensures var q := Hunt(StartSlots(last), [2, 3]);
            q.Found? && q.entry == 2 && Lined(q.s, last, 3) && q.s.check == StartSlots(last).check &&
            q.s.used == StartSlots(last).used && |q.s.fails| == |StartSlots(last).fails| > 0 && q.s.fails[0] == 0
    ensures Front(StartSlots(last), last, 1, [], [])
    ensures 1 <= |Used(StartSlots(last).check, 1, 2)| + |Clashes([], [2, 3])|
  {
    hide StartSlots; hide Used; hide Clashes; hide Sound; hide Hunt; hide Lined; hide Untouched; hide Front;
    hide ChainEnd;
    StartSound(last);
    LastLarge(last);
    FrontStart(StartSlots(last), last);
    LeafMin([2, 3]);
    NoClashes([2, 3]);
    var x := NextEntry(StartSlots(last), last, 1, [], [], [2, 3]);
    NonEmptySlots(StartSlots(last), last);
  }

  lemma LastLarge(last: nat)
    requires ChainEnd(last)
    ensures last > LIMIT
  {
    assert last % BLOCK == 605;
  }

  lemma NoClashes(codes: seq<nat>)
    requires codes != []
    ensures Highest([], codes) == 2 && Room([], codes)
  {
    assert Clashes([], codes) == {};
  }

  lemma NonEmptySlots(s: Slots, last: nat)
    requires Untouched(s, last)
    ensures |s.fails| > 0
  {}

  // The root after its first visit to a leaf.
  ghost predicate FirstRound(t: Tree, r: Run, last: nat) {
    RunOk(t, r) && r.last == last && r.stack == [Entry(0, 1, [2, 3])] && Picture(t, r, 0, 3) &&
    Front(r.s, last, 3, [[2, 3]], [2])
  }

  lemma RunFirst(t: Tree, last: nat) returns (r: Run)
    requires TwoLeaves(t) && ChainEnd(last) && TreeOk(t)
    ensures FirstRound(t, r, last) && Finish(t, r) == Outcome(t, last)
  {
    hide RunOk; hide TreeOk; hide Picture; hide Front; hide Stuck; hide Next; hide TwoLeaves; hide Outcome;
    hide Finish; hide NewOrder; hide PlaceKids; hide Hunt; hide KidsReady; hide BaseOf; hide StartSlots;
    OutcomeView(t, last);
    var r0 := StartRun(t, last);
    StartPicture(t, last);
    FirstOrder(t, r0);
    FirstHunt(last);
    PictureRoot(t, r0, 0, 1);
    RootMoves(t, r0, 0, [], [2, 3]);
    RootPlaces(t, r0, 0, [], [2, 3], 1);
    NextGoesOn(t, r0);
    var r1 := Next(t, r0);
    FrontAfterFirst(t, r0, last);
    LeafOnTop(t, [2, 3], 0);
    LeafPops(t, r1);
    NextGoesOn(t, r1);
    r := Next(t, r1);
    PictureRestack(t, r1, 0, 3, r.stack);
  }

  lemma LeafOnTop(t: Tree, codes: seq<nat>, k: nat)
    requires TwoLeaves(t) && LeafCodes(codes) && k < |codes|
    ensures codes[k] in t.nodes[0].children && t.nodes[0].children[codes[k]] != 0
  {
    RootCode(t);
    assert codes[k] in t.nodes[0].children.Keys;
  }

  lemma FrontAfterFirst(t: Tree, r: Run, last: nat)
    requires ChainEnd(last) && r.s == StartSlots(last) && r.last == last && |r.slot| > 0
    requires KidsReady(t.nodes, 0, [2, 3], r)
    ensures Front(PlaceKids(t.nodes, 0, [2, 3], r).s, last, 3, [[2, 3]], [2])
    ensures PlaceKids(t.nodes, 0, [2, 3], r).last == last
  {
    hide StartSlots; hide Front; hide ChainEnd; hide PlaceKids; hide Hunt; hide KidsReady; hide Used; hide Clashes;
    hide PlacedThere; hide Lined;
    FirstHunt(last);
    FoundPlaces(t.nodes, 0, [2, 3], r);
    PlacedQueues(t.nodes, 0, [2, 3], r);
    NextFront(r.s, last, 1, [], [], [2, 3], PlaceKids(t.nodes, 0, [2, 3], r).s, 2, r.slot[0]);
    assert [] + [[2, 3]] == [[2, 3]] && [] + [2] == [2];
  }

  // The second time the leaves go to the slots 4 and 5.
  lemma SecondHunt(s: Slots, last: nat)
    requires Front(s, last, 3, [[2, 3]], [2]) && |s.check| > 3 && s.check[3] != 0
    ensures Hunt(s, [2, 2, 3, 3]).Found? && Hunt(s, [2, 2, 3, 3]).entry == 4
  {
    hide Hunt; hide Front;
    LeafMin([2, 2, 3, 3]);
    LeafMin([2, 3]);
    OneClash();
    var x := NextEntry(s, last, 3, [[2, 3]], [2], [2, 2, 3, 3]);
    UsedUnfit(s, 3, [2, 2, 3, 3], x);
  }

  lemma OneClash()
    ensures NoneEmpty([[2, 3]]) && Highest([[2, 3]], [2, 2, 3, 3]) == 4 && Room([[2, 3]], [2, 2, 3, 3])
  {
    LeafMin([2, 2, 3, 3]);
    LeafMin([2, 3]);
    hide Offsets; hide MinCode;
    var lists: seq<seq<nat>>, codes: seq<nat> := [], [2, 3];
    assert lists + [codes] == [[2, 3]];
    assert Clashes([[2, 3]], [2, 2, 3, 3]) == {};
    assert Clashes(lists, codes) == {};
    assert Near(codes) == {1};
    ReachSnoc(lists, codes);
  }

  lemma RunSecond(t: Tree, last: nat) returns (r: Run)
    requires TwoLeaves(t) && ChainEnd(last) && TreeOk(t)
    ensures r == Outcome(t, last) && r.stack == [] && Picture(t, r, 2, 5)
  {
    hide RunOk; hide TreeOk; hide Front; hide ChainEnd; hide Stuck; hide Next; hide TwoLeaves; hide Outcome;
    hide Finish; hide NewOrder; hide PlaceKids; hide Hunt; hide KidsReady; hide BaseOf; hide Picture;
    var r2 := RunFirst(t, last);
    SecondOrder(t, r2);
    PictureCheck(t, r2, 0, 3);
    SecondHunt(r2.s, last);
    PictureRoot(t, r2, 0, 3);
    RootMoves(t, r2, 1, [2, 3], [2, 2, 3, 3]);
    RootPlaces(t, r2, 1, [2, 3], [2, 2, 3, 3], 3);
    NextGoesOn(t, r2);
    var r3 := Next(t, r2);
    LeafOnTop(t, [2, 2, 3, 3], 1);
    LeafPops(t, r3);
    NextGoesOn(t, r3);
    var r4 := Next(t, r3);
    PictureRestack(t, r3, 2, 5, r4.stack);
    LeafPops(t, r4);
    NextGoesOn(t, r4);
    r := Next(t, r4);
    PictureRestack(t, r4, 2, 5, r.stack);
    FinishView(t, r);
  }

  lemma PictureCheck(t: Tree, r: Run, root: int, high: nat)
    requires Picture(t, r, root, high) && 1 <= high < 8
    ensures |r.s.check| > high && r.s.check[high] != 0
  {
    assert SlotPicture(r, root, high, high);
  }

  // ---------- Reading ----------

  lemma PictureFails(p: Plan, last: nat, a: Arrays)
    requires LinkedTrie(p, CONTROLS) && Built(p, last, a) && TwoLeaves(Shape(p))
    ensures Picture(Shape(p), Outcome(Shape(p), last), 2, 5) && p.slot == Outcome(Shape(p), last).slot
    ensures LinksInside(a) && a.fail[0] == a.fail[2] == 0
  {
    hide LinkedTrie; hide TwoLeaves; hide Outcome; hide TreeOk; hide Picture; hide ChainEnd; hide LinksInside;
    hide Distinct;
    hide LinksPacked; hide NoOtherLinks;
    var r := RunSecond(Shape(p), last);
    SlotsOfLeaves(Shape(p), r);
    LinksOfLeaves(p, a);
  }

  // The leaves fail to the root, and no other slot has a link.
  lemma LinksOfLeaves(p: Plan, a: Arrays)
    requires LinksPacked(p.nodes, a.fail, p.slot) && NoOtherLinks(p.slot, a.fail) && Distinct(p.slot)
    requires |p.slot| == 3 && {p.slot[1], p.slot[2]} == {4, 5}
    requires |a.base| == |a.check| == |a.fail| == |a.output| >= 8
    ensures LinksInside(a) && a.fail[0] == a.fail[2] == 0
  {
    assert p.slot[1] in {4, 5} && p.slot[2] in {4, 5};
    forall x | 0 <= x < |a.fail| ensures a.fail[x] < |a.fail| {
      if x in p.slot[1..] {
        var m :| 0 <= m < 2 && p.slot[1..][m] == x;
        assert p.slot[m + 1] == x;
      }
    }
  }

  lemma SlotsOfLeaves(t: Tree, r: Run)
    requires Picture(t, r, 2, 5)
    ensures Distinct(r.slot) && |r.slot| == 3 && r.slot[0] == 1 && {r.slot[1], r.slot[2]} == {4, 5}
    ensures |r.base| == |r.output| == |r.s.check| >= 8
  {
    LeafNodes(t);
  }

  // What the picture means for reading.
  lemma TurnsShown(t: Tree, r: Run, a: Arrays)
    requires Picture(t, r, 2, 5) && a.base == r.base && a.check == r.s.check && a.output == r.output
    requires LinksInside(a) && a.fail[0] == a.fail[2] == 0
    ensures |a.base| >= 8 && TurnAt(a, 1, 0) == Goes(2) && a.output[2] == 1
    ensures TurnAt(a, 2, 3) == Fails(0) && TurnAt(a, 0, 3) == Fails(0)
  {
    hide TwoLeaves;
    assert SlotPicture(r, 2, 5, 0) && SlotPicture(r, 2, 5, 1) && SlotPicture(r, 2, 5, 2) && SlotPicture(r, 2, 5, 3);
  }

  // After this build the code 0 of a character that is in no pattern leads from the root to slot
  // 2, which is no node's, and its output makes a hit; and reading code 3 there never ends.
  lemma FalseHitThenEndless(p: Plan, last: nat, a: Arrays)
    requires LinkedTrie(p, CONTROLS) && Built(p, last, a)
    ensures LinksInside(a) && |a.base| >= 8
    ensures TurnAt(a, 1, 0) == Goes(2) && 2 !in p.slot && a.output[2] == 1
    ensures Endless(a, 2, 3)
  {
    hide LinkedTrie; hide TwoLeaves; hide Outcome; hide TreeOk; hide ChainEnd; hide Picture; hide TurnAt;
    hide LinksInside;
    TheTrie(p);
    PictureFails(p, last, a);
    SlotsOfLeaves(Shape(p), Outcome(Shape(p), last));
    assert p.slot[1] in {4, 5} && p.slot[2] in {4, 5};
    TurnsShown(Shape(p), Outcome(Shape(p), last), a);
    forall n: nat ensures After(a, 2, 3, n).Fails? {
      if n > 0 { FailsToItself(a, 3, n - 1); }
    }
  }

  // A slot that fails to itself holds the loop for ever.
  lemma {:induction false} FailsToItself(a: Arrays, c: nat, n: nat)
    requires LinksInside(a) && |a.base| > 0 && TurnAt(a, 0, c) == Fails(0)
    ensures After(a, 0, c, n).Fails?
    decreases n
  {
    if n > 0 { FailsToItself(a, c, n - 1); }
  }
}