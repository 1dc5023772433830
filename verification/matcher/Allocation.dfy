// What the free-slot allocator of the double array keeps true, on values.
module Allocation {
  import opened Utf8

  const BLOCK := 1024
  const THRESHOLD := 512
  const GROWTH := 4

  // check is 0 at empty slots; chain and dense queue slots that may be empty; used and fails
  // count, block by block, the slots taken and the bases that did not fit.
  datatype Slots = Slots(check: seq<nat>, chain: seq<nat>, dense: seq<nat>, used: seq<nat>, fails: seq<nat>)

  function Range(first: nat, last: nat): (r: seq<nat>)
    requires first <= last
    ensures |r| == last - first + 1 && forall i :: 0 <= i < |r| ==> r[i] == first + i
  {
    seq(last - first + 1, i requires 0 <= i => first + i)
  }

  lemma RangeTail(last: nat)
    requires last > 0
    ensures Range(0, last)[1..] == Range(1, last)
  {}

  function Resize<T>(s: seq<T>, n: nat, x: T): (r: seq<T>)
    requires |s| <= n
    ensures |r| == n && forall i :: 0 <= i < n ==> r[i] == if i < |s| then s[i] else x
  {
    s + seq(n - |s|, i => x)
  }

  function Zeros(n: nat): (r: seq<nat>)
    ensures |r| == n && forall i :: 0 <= i < n ==> r[i] == 0
  {
    seq(n, i => 0)
  }

  function Halved(s: seq<nat>): (r: seq<nat>)
    ensures |r| == |s| && forall i :: 0 <= i < |r| ==> r[i] == s[i] / 2
  {
    seq(|s|, i requires 0 <= i < |s| => s[i] / 2)
  }

  // Few slots of its block are taken, and few bases have failed there.
  predicate Sparse(s: Slots, x: nat) {
    x / BLOCK < |s.used| && x / BLOCK < |s.fails| && s.used[x / BLOCK] < THRESHOLD && s.fails[x / BLOCK] < THRESHOLD
  }

  // Codes in 1 to MAX_CODE, at least one.
  predicate GoodCodes(codes: seq<nat>) {
    |codes| > 0 && forall i :: 0 <= i < |codes| ==> 1 <= codes[i] <= MAX_CODE
  }

  predicate IsMin(codes: seq<nat>, min: nat) {
    min in codes && forall i :: 0 <= i < |codes| ==> min <= codes[i]
  }

  // Every slot base + c is inside the array and empty.
  ghost predicate Fits(check: seq<nat>, base: int, codes: seq<nat>) {
    forall i :: 0 <= i < |codes| ==> EmptyAt(check, base + codes[i])
  }

  ghost predicate EmptyAt(check: seq<nat>, x: int) {
    0 < x < |check| && check[x] == 0
  }

  // No slot above top is used, and neither is a block counter above its block. Every empty slot
  // up to last is queued, except the hole that has just been handed out.
  ghost predicate Sound(s: Slots, last: nat, top: nat, hole: int) {
    |s.used| == |s.fails| && |s.check| == |s.used| * BLOCK == last + MAX_CODE && last > 0 &&
    (forall i :: 0 <= i < |s.chain| ==> 1 <= s.chain[i] <= last) &&
    (forall i :: 0 <= i < |s.dense| ==> 1 <= s.dense[i] <= last && s.dense[i] / BLOCK <= top / BLOCK) &&
    (forall x :: top < x < |s.check| ==> s.check[x] == 0) &&
    (forall b :: top / BLOCK < b < |s.used| ==> s.used[b] == s.fails[b] == 0) &&
    forall x :: 1 <= x <= last && s.check[x] == 0 && x != hole ==> Queued(s, x)
  }

  ghost predicate Queued(s: Slots, x: nat) {
    x in s.chain || x in s.dense
  }

  // The first slot of the first block that is free of used slots and of counts.
  function FreshSlot(top: nat): nat { (top / BLOCK + 1) * BLOCK }

  lemma BlockOf(s: Slots, last: nat, top: nat, hole: int, x: nat)
    requires Sound(s, last, top, hole) && x < |s.check|
    ensures x / BLOCK < |s.used|
  {}

  // The fresh slot waits in the chain as soon as the chain reaches that far.
  lemma FreshQueued(s: Slots, last: nat, top: nat)
    requires Sound(s, last, top, 0) && FreshSlot(top) <= last
    ensures FreshSlot(top) in s.chain
  {
    var f := FreshSlot(top);
    assert s.check[f] == 0;
    assert Queued(s, f);
  }

  // Everything fits at the fresh slot.
  lemma FreshFits(s: Slots, last: nat, top: nat, codes: seq<nat>, min: nat)
    requires Sound(s, last, top, 0) && FreshSlot(top) <= last && GoodCodes(codes) && IsMin(codes, min)
    ensures Tempting(s, FreshSlot(top), codes, min)
  {
    var f := FreshSlot(top);
    forall i | 0 <= i < |codes| ensures EmptyAt(s.check, f - min + codes[i]) {}
  }

  // A candidate base keeps every probe inside the array.
  lemma ProbesInside(s: Slots, last: nat, top: nat, codes: seq<nat>, min: nat, entry: nat)
    requires Sound(s, last, top, 0) && GoodCodes(codes) && IsMin(codes, min) && 1 <= entry <= last
    ensures forall i :: 0 <= i < |codes| ==> 0 < entry - min + codes[i] < |s.check|
  {
    var j :| 0 <= j < |codes| && codes[j] == min;
  }

  // If the codes do not fit then some slot from entry on is used.
  lemma MissBelowTop(s: Slots, last: nat, top: nat, hole: int, codes: seq<nat>, min: nat, entry: nat)
    requires Sound(s, last, top, hole) && GoodCodes(codes) && IsMin(codes, min) && 1 <= entry <= last
    requires !Fits(s.check, entry - min, codes)
    ensures entry / BLOCK <= top / BLOCK
  {
    var j :| 0 <= j < |codes| && codes[j] == min;
    var i :| 0 <= i < |codes| && !EmptyAt(s.check, entry - min + codes[i]);
    assert entry <= entry - min + codes[i] < |s.check|;
  }

  lemma ChainPop(s: Slots, last: nat, top: nat)
    requires Sound(s, last, top, 0) && s.chain != []
    ensures 1 <= s.chain[0] <= last
    ensures Sound(s.(chain := s.chain[1..]), last, top, s.chain[0])
    ensures s.check[s.chain[0]] != 0 ==> Sound(s.(chain := s.chain[1..]), last, top, 0)
  {
    var t := s.(chain := s.chain[1..]);
    assert s.chain == [s.chain[0]] + t.chain;
    forall x | 1 <= x <= last && s.check[x] == 0 && x != s.chain[0] ensures Queued(t, x) {
      assert Queued(s, x);
    }
  }

  lemma DensePop(s: Slots, last: nat, top: nat)
    requires Sound(s, last, top, 0) && s.dense != []
    ensures 1 <= s.dense[0] <= last
    ensures Sound(s.(dense := s.dense[1..]), last, top, s.dense[0])
    ensures s.check[s.dense[0]] != 0 ==> Sound(s.(dense := s.dense[1..]), last, top, 0)
  {
    var t := s.(dense := s.dense[1..]);
    assert s.dense == [s.dense[0]] + t.dense;
    forall x | 1 <= x <= last && s.check[x] == 0 && x != s.dense[0] ensures Queued(t, x) {
      assert Queued(s, x);
    }
  }

  // A slot at which the codes did not fit goes back to the chain, and its block is charged.
  lemma ChainBack(s: Slots, last: nat, top: nat, x: nat, count: nat)
    requires Sound(s, last, top, x) && 1 <= x <= last && x / BLOCK <= top / BLOCK
    ensures x / BLOCK < |s.fails|
    ensures Sound(s.(chain := s.chain + [x], fails := s.fails[x / BLOCK := count]), last, top, 0)
  {
    var t := s.(chain := s.chain + [x], fails := s.fails[x / BLOCK := count]);
    forall y | 1 <= y <= last && s.check[y] == 0 && y != 0 ensures Queued(t, y) {
      if y != x { assert Queued(s, y); } else { assert t.chain[|s.chain|] == x; }
    }
  }

  // A slot of a block that is no longer sparse goes to the dense queue.
  lemma DenseBack(s: Slots, last: nat, top: nat, x: nat)
    requires Sound(s, last, top, x) && 1 <= x <= last && x / BLOCK < |s.used| && !Sparse(s, x)
    ensures Sound(s.(dense := s.dense + [x]), last, top, 0)
  {
    var t := s.(dense := s.dense + [x]);
    assert s.used[x / BLOCK] > 0 || s.fails[x / BLOCK] > 0;
    forall y | 1 <= y <= last && s.check[y] == 0 && y != 0 ensures Queued(t, y) {
      if y != x { assert Queued(s, y); } else { assert t.dense[|s.dense|] == x; }
    }
  }

  lemma FailsReset(s: Slots, last: nat, top: nat, hole: int, b: nat)
    requires Sound(s, last, top, hole) && b < |s.fails|
    ensures Sound(s.(fails := s.fails[b := 0]), last, top, hole)
  {
    var t := s.(fails := s.fails[b := 0]);
    forall y | 1 <= y <= last && s.check[y] == 0 && y != hole ensures Queued(t, y) {
      assert Queued(s, y);
    }
  }

  // The array after it has grown to a number of blocks.
  function Enlarged(s: Slots, last: nat, last': nat, blocks: nat): Slots
    requires last <= last' && |s.used| <= blocks && |s.fails| <= blocks && |s.check| <= blocks * BLOCK
  {
    Slots(Resize(s.check, blocks * BLOCK, 0), s.chain + Range(last, last'), s.dense,
          Resize(s.used, blocks, 0), Halved(Resize(s.fails, blocks, 0)))
  }

  lemma EnlargedSound(s: Slots, last: nat, top: nat, last': nat, blocks: nat)
    requires Sound(s, last, top, 0) && last <= last' && |s.used| <= blocks && blocks * BLOCK == last' + MAX_CODE
    ensures Sound(Enlarged(s, last, last', blocks), last', top, 0)
  {
    var t := Enlarged(s, last, last', blocks);
    forall x | 1 <= x <= last' && t.check[x] == 0 && x != 0 ensures Queued(t, x) {
      if x < last { assert Queued(s, x); } else { assert t.chain[|s.chain| + (x - last)] == x; }
    }
  }

  // Taking a slot keeps the allocator sound, with a higher top.
  lemma Taken(s: Slots, last: nat, top: nat, hole: int, x: nat, owner: nat)
    requires Sound(s, last, top, hole) && x < |s.check| && owner > 0
    ensures x / BLOCK < |s.used|
    ensures var t := s.(check := s.check[x := owner], used := s.used[x / BLOCK := s.used[x / BLOCK] + 1]);
            Sound(t, last, if x > top then x else top, hole)
  {
    var t := s.(check := s.check[x := owner], used := s.used[x / BLOCK := s.used[x / BLOCK] + 1]);
    var top' := if x > top then x else top;
    assert top / BLOCK <= top' / BLOCK && x / BLOCK <= top' / BLOCK;
    forall y | 1 <= y <= last && t.check[y] == 0 && y != hole ensures Queued(t, y) {
      assert Queued(s, y);
    }
  }

  lemma HoleFilled(s: Slots, last: nat, top: nat, hole: int)
    requires Sound(s, last, top, hole) && 0 < hole < |s.check| && s.check[hole] != 0
    ensures Sound(s, last, top, 0)
  {
    forall y | 1 <= y <= last && s.check[y] == 0 && y != 0 ensures Queued(s, y) {}
  }

  // An empty slot of a sparse block at which the codes fit.
  ghost predicate Tempting(s: Slots, e: nat, codes: seq<nat>, min: nat) {
    EmptyAt(s.check, e) && Sparse(s, e) && Fits(s.check, e - min, codes)
  }

  // The parallel arrays of the double array.
  datatype Arrays = Arrays(base: seq<int>, check: seq<nat>, fail: seq<nat>, output: seq<nat>)

  // The longer sequence keeps the shorter one and adds zeros.
  ghost predicate Extends(s: seq<int>, t: seq<int>) {
    |s| <= |t| && forall i :: 0 <= i < |t| ==> t[i] == if i < |s| then s[i] else 0
  }

  lemma CountersMatch(s: Slots, last: nat, top: nat, hole: int)
    requires Sound(s, last, top, hole)
    ensures |s.used| == |s.fails| && last > 0
  {}

  // ---------- The search for a base ----------

  // What a search does to the slots: it finds one for the smallest code, or none.
  datatype Search = Found(s: Slots, entry: nat) | Missed(s: Slots)

  function MinCode(codes: seq<nat>): (min: nat)
    requires codes != []
    ensures IsMin(codes, min)
  {
    if |codes| == 1 then codes[0]
    else
      var rest := MinCode(codes[1..]);
      assert codes == [codes[0]] + codes[1..];
      if codes[0] < rest then codes[0] else rest
  }

  lemma MinIs(codes: seq<nat>, min: nat)
    requires codes != [] && IsMin(codes, min)
    ensures min == MinCode(codes)
  {}

  // The first slot of the dense queue that is still empty.
  ghost function FromDense(s: Slots): Search
    decreases |s.dense|
  {
    if s.dense == [] then Missed(s)
    else
      var rest := s.(dense := s.dense[1..]);
      if EmptyAt(s.check, s.dense[0]) then Found(rest, s.dense[0]) else FromDense(rest)
  }

  // The slot at the front of the chain is taken, or dropped because it is used, or set aside
  // because its block is dense, or put back because the codes do not fit there.
  ghost function TryFront(s: Slots, codes: seq<nat>, min: nat): Search
    requires s.chain != []
  {
    var e, rest := s.chain[0], s.(chain := s.chain[1..]);
    if !EmptyAt(s.check, e) then Missed(rest)
    else if !Sparse(s, e) then Missed(rest.(dense := s.dense + [e]))
    else if Fits(s.check, e - min, codes) then Found(rest.(fails := s.fails[e / BLOCK := 0]), e)
    else Missed(rest.(chain := s.chain[1..] + [e], fails := s.fails[e / BLOCK := s.fails[e / BLOCK] + 1]))
  }

  ghost function Scan(s: Slots, codes: seq<nat>, min: nat, n: nat): Search
    decreases n
  {
    if n == 0 || s.chain == [] then Missed(s)
    else
      var r := TryFront(s, codes, min);
      if r.Found? then r else Scan(r.s, codes, min, n - 1)
  }

  // Single codes may go to dense blocks; then the chain is gone through once.
  ghost function Hunt(s: Slots, codes: seq<nat>): Search
    requires codes != []
  {
    var r := if |codes| == 1 then FromDense(s) else Missed(s);
    if r.Found? then r else Scan(r.s, codes, MinCode(codes), |r.s.chain|)
  }

  // After a search the slots are sound but for the one handed out, and nothing else is taken.
  ghost predicate Searched(s: Slots, last: nat, top: nat, codes: seq<nat>, min: nat, r: Search) {
    r.s.check == s.check && r.s.used == s.used &&
    match r
    case Found(t, e) => 1 <= e <= last && Sound(t, last, top, e) && Fits(s.check, e - min, codes)
    case Missed(t) => Sound(t, last, top, 0)
  }

  lemma {:induction false} FromDenseOk(s: Slots, last: nat, top: nat, codes: seq<nat>, min: nat)
    requires Sound(s, last, top, 0) && |codes| == 1 && codes[0] == min
    ensures Searched(s, last, top, codes, min, FromDense(s))
    ensures FromDense(s).Missed? ==> FromDense(s).s.chain == s.chain
    decreases |s.dense|
  {
    if s.dense != [] {
      DensePop(s, last, top);
      hide Sound;
      if !EmptyAt(s.check, s.dense[0]) { FromDenseOk(s.(dense := s.dense[1..]), last, top, codes, min); }
    }
  }

  // The rest of the chain stays in order when its front is taken or goes to the back.
  lemma FrontTaken(s: Slots, codes: seq<nat>, min: nat)
    requires s.chain != []
    ensures |TryFront(s, codes, min).s.chain| >= |s.chain| - 1
    ensures TryFront(s, codes, min).s.chain[..|s.chain| - 1] == s.chain[1..]
  {
    hide Fits; hide Sparse; hide EmptyAt;
  }

  lemma FrontTempts(s: Slots, codes: seq<nat>, min: nat)
    requires s.chain != []
    ensures TryFront(s, codes, min).Found? <==> Tempting(s, s.chain[0], codes, min)
  {
    hide Fits; hide Sparse; hide EmptyAt;
  }

  lemma TryFrontOk(s: Slots, last: nat, top: nat, codes: seq<nat>, min: nat)
    requires Sound(s, last, top, 0) && s.chain != [] && GoodCodes(codes) && IsMin(codes, min)
    ensures Searched(s, last, top, codes, min, TryFront(s, codes, min))
    ensures TryFront(s, codes, min).Found? <==> Tempting(s, s.chain[0], codes, min)
    ensures |TryFront(s, codes, min).s.chain| >= |s.chain| - 1
    ensures TryFront(s, codes, min).s.chain[..|s.chain| - 1] == s.chain[1..]
  {
    hide Sound; hide GoodCodes; hide IsMin; hide Fits; hide Tempting; hide EmptyAt;
    var e, rest := s.chain[0], s.(chain := s.chain[1..]);
    FrontTaken(s, codes, min);
    FrontTempts(s, codes, min);
    ChainPop(s, last, top);
    BlockOf(s, last, top, 0, e);
    SizesOf(s, last, top, 0);
    EmptyWhere(s.check, e);
    if EmptyAt(s.check, e) {
      if !Sparse(s, e) {
        DenseBack(rest, last, top, e);
      } else if Fits(s.check, e - min, codes) {
        FailsReset(rest, last, top, e, e / BLOCK);
      } else {
        MissBelowTop(s, last, top, 0, codes, min, e);
        ChainBack(rest, last, top, e, s.fails[e / BLOCK] + 1);
      }
    }
  }

  lemma EmptyWhere(check: seq<nat>, x: nat)
    ensures EmptyAt(check, x) <==> 0 < x < |check| && check[x] == 0
  {}

  // A round over n slots of the chain that finds none has not met the fresh slot.
  lemma {:induction false} ScanOk(s: Slots, last: nat, top: nat, codes: seq<nat>, min: nat, n: nat)
    requires Sound(s, last, top, 0) && GoodCodes(codes) && IsMin(codes, min) && n <= |s.chain|
    ensures Searched(s, last, top, codes, min, Scan(s, codes, min, n))
    ensures Scan(s, codes, min, n).Missed? && FreshSlot(top) <= last ==> FreshSlot(top) !in s.chain[..n]
    decreases n
  {
    hide Sound; hide GoodCodes; hide IsMin; hide FreshSlot; hide Tempting; hide Fits; hide TryFront;
    if n > 0 {
      TryFrontOk(s, last, top, codes, min);
      var r := TryFront(s, codes, min);
      if r.Missed? {
        ScanOk(r.s, last, top, codes, min, n - 1);
        assert s.chain[..n] == [s.chain[0]] + s.chain[1..][..n - 1];
        assert r.s.chain[..n - 1] == r.s.chain[..|s.chain| - 1][..n - 1];
        if FreshSlot(top) <= last { FreshFits(s, last, top, codes, min); }
      }
    }
  }

  lemma HuntOk(s: Slots, last: nat, top: nat, codes: seq<nat>)
    requires Sound(s, last, top, 0) && GoodCodes(codes)
    ensures Searched(s, last, top, codes, MinCode(codes), Hunt(s, codes))
    ensures Hunt(s, codes).Missed? ==> last < FreshSlot(top)
  {
    hide Sound; hide FreshSlot; hide Fits; hide Scan; hide FromDense;
    if |codes| == 1 { FromDenseOk(s, last, top, codes, MinCode(codes)); }
    var r := if |codes| == 1 then FromDense(s) else Missed(s);
    if r.Missed? {
      ScanOk(r.s, last, top, codes, MinCode(codes), |r.s.chain|);
      assert r.s.chain[..|r.s.chain|] == r.s.chain;
      if FreshSlot(top) <= last { FreshQueued(r.s, last, top); }
    }
  }

  // A base that was found, in slots that may have grown for it.
  datatype Choice = Choice(s: Slots, last: nat, base: int)

  // Growth by four blocks.
  function Wider(s: Slots, last: nat): Slots
    requires |s.check| == |s.used| * BLOCK && |s.fails| == |s.used|
  {
    Enlarged(s, last, last + GROWTH * BLOCK, |s.used| + GROWTH)
  }

  // The base is one for the codes, and nothing else is taken.
  ghost predicate Served(s: Slots, last: nat, top: nat, codes: seq<nat>, r: Choice) {
    codes != [] && r.last >= last && Sound(r.s, r.last, top, r.base + MinCode(codes)) &&
    Fits(r.s.check, r.base, codes) && Extends(s.check, r.s.check)
  }

  // Searches and grows until a base is found. The search ends because growing brings the fresh
  // slot above all used ones within the chain.
  ghost function FindBase(s: Slots, last: nat, top: nat, codes: seq<nat>): (r: Choice)
    requires Sound(s, last, top, 0) && GoodCodes(codes)
    ensures Served(s, last, top, codes, r)
    decreases FreshSlot(top) - last
  {
    hide Sound; hide GoodCodes; hide Fits; hide Extends; hide Hunt; hide Wider; hide FreshSlot;
    MissedThenWider(s, last, top, codes);
    match Hunt(s, codes)
    case Found(t, e) => Choice(t, last, e - MinCode(codes))
    case Missed(t) =>
      var r := FindBase(Wider(t, last), last + GROWTH * BLOCK, top, codes);
      ExtendsTwice(s.check, Wider(t, last).check, r.s.check);
      r
  }

  lemma ExtendsTwice(a: seq<int>, b: seq<int>, c: seq<int>)
    requires Extends(a, b) && Extends(b, c)
    ensures Extends(a, c)
  {}

  lemma CodesGiven(codes: seq<nat>)
    requires GoodCodes(codes)
    ensures codes != []
  {}

  // What was found is a base; and if nothing was, the array grows, and the fresh slot comes nearer.
  lemma MissedThenWider(s: Slots, last: nat, top: nat, codes: seq<nat>)
    requires Sound(s, last, top, 0) && GoodCodes(codes)
    ensures codes != []
    ensures Hunt(s, codes).Found? ==>
              var t, e := Hunt(s, codes).s, Hunt(s, codes).entry;
              Extends(s.check, t.check) && Sound(t, last, top, e) && Fits(t.check, e - MinCode(codes), codes)
    ensures Hunt(s, codes).Missed? ==>
              var t := Hunt(s, codes).s;
              last < FreshSlot(top) && |t.check| == |t.used| * BLOCK && |t.fails| == |t.used| &&
              Sound(Wider(t, last), last + GROWTH * BLOCK, top, 0) && Extends(s.check, Wider(t, last).check)
  {
    HuntOk(s, last, top, codes);
    hide Hunt;
    var r := Hunt(s, codes);
    if r.Missed? {
      SizesOf(r.s, last, top, 0);
      EnlargedSound(r.s, last, top, last + GROWTH * BLOCK, |r.s.used| + GROWTH);
    }
  }

  lemma SizesOf(s: Slots, last: nat, top: nat, hole: int)
    requires Sound(s, last, top, hole)
    ensures |s.check| == |s.used| * BLOCK == last + MAX_CODE && |s.fails| == |s.used| && last > 0
  {}

  method MinElement(codes: seq<nat>) returns (min: nat)
    requires |codes| > 0
    ensures min == MinCode(codes)
  {
    min := codes[0];
    var i := 1;
    while i < |codes|
      invariant 1 <= i <= |codes|
      invariant min in codes && forall k :: 0 <= k < i ==> min <= codes[k]
    {
      if codes[i] < min { min := codes[i]; }
      i := i + 1;
    }
    MinIs(codes, min);
  }

  // Only the root's slot is in use, and every slot is in the chain in order.
  ghost predicate Untouched(s: Slots, last: nat) {
    |s.used| == |s.fails| && |s.check| == |s.used| * BLOCK == last + MAX_CODE && last > 0 &&
    s.chain == Range(1, last) && s.dense == [] &&
    (forall x :: 0 <= x < |s.check| ==> s.check[x] == if x == 1 then 1 else 0) &&
    forall b :: 0 <= b < |s.used| ==> s.fails[b] == 0 && s.used[b] == if b == 0 then 1 else 0
  }
}
