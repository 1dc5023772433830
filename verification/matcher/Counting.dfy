// Where the allocator puts the first few hundred nodes, by counting. While everything fits into
// the front of the first block, slots are tried in ascending order, and a slot is passed over
// only for a slot in use: so a node's entry lies between two numbers that the codes determine.
module Counting {
  import opened Utf8
  import opened Allocation

  // Entries below this are served in order: their block stays sparse however often one misses.
  const LIMIT := THRESHOLD - 2

  // The distances of the other codes from the least.
  ghost function Offsets(codes: seq<nat>): set<nat>
    requires codes != []
  {
    set c | c in codes && c > MinCode(codes) :: c - MinCode(codes)
  }

  ghost function Near(codes: seq<nat>): set<nat>
    requires codes != []
  {
    set x | x in Offsets(codes) && x < LIMIT
  }

  ghost predicate NoneEmpty(lists: seq<seq<nat>>) {
    forall j :: 0 <= j < |lists| ==> lists[j] != []
  }

  // Pairs of a distance x in an earlier list and a smaller distance y in the next that can make
  // a slot unfit for the next list: the slot that y would take has been taken for x.
  ghost function Clashes(lists: seq<seq<nat>>, codes: seq<nat>): set<(nat, nat, nat)>
    requires NoneEmpty(lists) && codes != []
  {
    set j, x, y | 0 <= j < |lists| && x in Offsets(lists[j]) && y in Offsets(codes) && 0 < x - y < LIMIT :: (j, x, y)
  }

  // Slots to be passed over, or taken, before the next list gets its entry, but for its clashes.
  ghost function Reach(lists: seq<seq<nat>>): nat
    requires NoneEmpty(lists)
    decreases |lists|
  {
    if lists == [] then 2
    else
      var k := |lists| - 1;
      Reach(lists[..k]) + |Clashes(lists[..k], lists[k])| + 1 + |Near(lists[k])|
  }

  ghost function Lowest(lists: seq<seq<nat>>): nat {
    2 + |lists|
  }

  ghost function Highest(lists: seq<seq<nat>>, codes: seq<nat>): nat
    requires NoneEmpty(lists) && codes != []
  {
    Reach(lists) + |Clashes(lists, codes)|
  }

  // Slots taken by the root and for the lists.
  function Taking(lists: seq<seq<nat>>): nat {
    if lists == [] then 1 else Taking(lists[..|lists| - 1]) + |lists[|lists| - 1]|
  }

  // There is room in the front of the first block.
  ghost predicate Room(lists: seq<seq<nat>>, codes: seq<nat>)
    requires NoneEmpty(lists) && codes != []
  {
    Highest(lists, codes) < LIMIT && Taking(lists) < THRESHOLD
  }

  // ---------- The chain in order ----------

  // The chain starts with the slots from r on, and the first block is sparse.
  ghost predicate Lined(s: Slots, last: nat, r: nat) {
    r <= last && |s.chain| > last - r && s.chain[..last - r + 1] == Range(r, last) && s.dense == [] && s.used != []
  }

  // The codes fit with slot x for the least of them.
  ghost predicate FitsAt(check: seq<nat>, codes: seq<nat>, x: nat)
    requires codes != []
  {
    Fits(check, x - MinCode(codes), codes)
  }

  // Slot x is the first from r on at which the codes fit.
  ghost predicate FirstFit(check: seq<nat>, codes: seq<nat>, r: nat, x: nat)
    requires codes != []
  {
    r <= x && FitsAt(check, codes, x) && forall y :: r <= y < x ==> !FitsAt(check, codes, y)
  }

  lemma FitsAtMin(s: Slots, codes: seq<nat>, x: nat)
    requires codes != [] && FitsAt(s.check, codes, x)
    ensures EmptyAt(s.check, x)
  {
    var i :| 0 <= i < |codes| && codes[i] == MinCode(codes);
    assert EmptyAt(s.check, x - MinCode(codes) + codes[i]);
  }

  lemma LinedTail(s: Slots, last: nat, r: nat)
    requires Lined(s, last, r)
    ensures s.chain != [] && s.chain[0] == r && s.chain[1..][..last - r] == s.chain[..last - r + 1][1..]
    ensures r < last ==> s.chain[1..][..last - r] == Range(r + 1, last)
  {
    assert s.chain[0] == s.chain[..last - r + 1][0];
  }

  // A slot at which the codes do not fit is passed over.
  lemma PassOver(s: Slots, last: nat, r: nat, codes: seq<nat>)
    requires Lined(s, last, r) && codes != [] && r < last && r < BLOCK && |s.used| == |s.fails|
    requires s.used[0] < THRESHOLD && s.fails[0] < THRESHOLD && !FitsAt(s.check, codes, r)
    ensures var q := TryFront(s, codes, MinCode(codes));
            q.Missed? && Lined(q.s, last, r + 1) && q.s.check == s.check && q.s.used == s.used &&
            |q.s.fails| == |s.fails| && q.s.fails[0] <= s.fails[0] + 1
  {
    LinedTail(s, last, r);
    hide Range; hide Fits; hide EmptyAt;
    var rest := s.chain[1..];
    assert r / BLOCK == 0;
    assert (rest + [r])[..last - r] == rest[..last - r];
  }

  // A round of the chain takes the first slot that fits.
  lemma {:induction false} ScanFinds(s: Slots, last: nat, r: nat, codes: seq<nat>, n: nat, x: nat)
    requires Lined(s, last, r) && codes != [] && |s.used| == |s.fails| && s.used[0] < THRESHOLD
    requires FirstFit(s.check, codes, r, x) && x < last && x < BLOCK && s.fails[0] + (x - r) < THRESHOLD && x - r < n
    ensures var q := Scan(s, codes, MinCode(codes), n);
            q.Found? && q.entry == x && Lined(q.s, last, x + 1) && q.s.check == s.check && q.s.used == s.used &&
            |q.s.fails| == |s.fails| && q.s.fails[0] == 0
    decreases x - r
  {
    LinedTail(s, last, r);
    hide Range; hide Fits; hide EmptyAt;
    if x == r {
      FitsAtMin(s, codes, x);
      assert x / BLOCK == 0;
    } else {
      PassOver(s, last, r, codes);
      var q := TryFront(s, codes, MinCode(codes));
      hide TryFront;
      ScanFinds(q.s, last, r + 1, codes, n - 1, x);
    }
  }

  lemma HuntFinds(s: Slots, last: nat, r: nat, codes: seq<nat>, x: nat)
    requires Lined(s, last, r) && codes != [] && |s.used| == |s.fails| && s.used[0] < THRESHOLD
    requires FirstFit(s.check, codes, r, x) && x < last && x < BLOCK && s.fails[0] == 0 && x - r < THRESHOLD
    ensures var q := Hunt(s, codes);
            q.Found? && q.entry == x && Lined(q.s, last, x + 1) && q.s.check == s.check && q.s.used == s.used &&
            |q.s.fails| == |s.fails| && q.s.fails[0] == 0
  {
    hide Scan; hide Fits; hide Range;
    ScanFinds(s, last, r, codes, |s.chain|, x);
  }

  // ---------- Slots in use ----------

  // The slots in use from r up to h.
  ghost function Used(check: seq<nat>, r: nat, h: nat): set<nat> {
    set y | r <= y < h && y < |check| && check[y] != 0
  }

  // Slot y was taken for a distance in list j.
  ghost predicate TakenFor(lists: seq<seq<nat>>, es: seq<nat>, j: nat, y: nat)
    requires NoneEmpty(lists) && j < |lists| == |es|
  {
    y - es[j] in Offsets(lists[j])
  }

  ghost predicate Owed(lists: seq<seq<nat>>, es: seq<nat>, y: nat)
    requires NoneEmpty(lists) && |lists| == |es|
  {
    exists j :: 0 <= j < |lists| && TakenFor(lists, es, j, y)
  }

  // The slots in use beyond r were taken for distances in the lists, whose entries lie before r.
  ghost predicate AllOwed(check: seq<nat>, r: nat, lists: seq<seq<nat>>, es: seq<nat>)
    requires NoneEmpty(lists)
  {
    |lists| == |es| && (forall j :: 0 <= j < |es| ==> es[j] < r) &&
    forall y :: r < y < |check| && check[y] != 0 ==> Owed(lists, es, y)
  }

  lemma {:induction false} ImageNotLarger(a: set<(nat, nat, nat)>, es: seq<nat>)
    ensures |Image(a, es)| <= |a|
    decreases |a|
  {
    if a != {} {
      var q :| q in a;
      ImageNotLarger(a - {q}, es);
      assert Image(a, es) <= Image(a - {q}, es) + {Blocked(q, es)};
      SubsetSize(Image(a, es), Image(a - {q}, es) + {Blocked(q, es)});
    }
  }

  // The slot a clash makes unfit.
  function Blocked(q: (nat, nat, nat), es: seq<nat>): nat {
    if q.0 < |es| && es[q.0] + q.1 >= q.2 then es[q.0] + q.1 - q.2 else 0
  }

  ghost function Image(a: set<(nat, nat, nat)>, es: seq<nat>): set<nat> {
    set q | q in a :: Blocked(q, es)
  }

  lemma {:induction false} SubsetSize<T>(a: set<T>, b: set<T>)
    requires a <= b
    ensures |a| <= |b|
  {
    assert b == a + (b - a);
  }

  lemma {:induction false} IntervalSize(r: nat, h: nat, a: set<nat>)
    requires r <= h && forall y :: r <= y < h ==> y in a
    ensures h - r <= |a|
    decreases h
  {
    if r < h { IntervalSize(r, h - 1, a - {h - 1}); }
  }

  // A slot where the codes do not fit is in use itself, or is blocked by a clash.
  lemma WhyUnfit(check: seq<nat>, last: nat, r: nat, lists: seq<seq<nat>>, es: seq<nat>, codes: seq<nat>, y: nat)
    requires NoneEmpty(lists) && AllOwed(check, r, lists, es) && codes != [] && GoodCodes(codes)
    requires |check| == last + MAX_CODE
    requires 1 <= r <= y < LIMIT && y <= last && !FitsAt(check, codes, y)
    ensures y in Used(check, r, y + 1) || y in Image(Clashes(lists, codes), es)
  {
    var min := MinCode(codes);
    var i :| 0 <= i < |codes| && !EmptyAt(check, y - min + codes[i]);
    var k :| 0 <= k < |codes| && codes[k] == min;
    var z := y - min + codes[i];
    assert 0 < z < |check| && check[z] != 0;
    if codes[i] != min {
      assert Owed(lists, es, z);
      var j :| 0 <= j < |lists| && TakenFor(lists, es, j, z);
      var q := (j, (z - es[j]) as nat, (codes[i] - min) as nat);
      assert codes[i] in codes && codes[i] - min in Offsets(codes);
      assert q in Clashes(lists, codes);
      assert Blocked(q, es) == y;
    }
  }

  // So few slots are passed over.
  lemma FewUnfit(check: seq<nat>, last: nat, r: nat, lists: seq<seq<nat>>, es: seq<nat>, codes: seq<nat>, h: nat)
    requires NoneEmpty(lists) && AllOwed(check, r, lists, es) && codes != [] && GoodCodes(codes)
    requires |check| == last + MAX_CODE
    requires 1 <= r <= h <= LIMIT <= last && forall y :: r <= y < h ==> !FitsAt(check, codes, y)
    ensures h - r <= |Used(check, r, h)| + |Clashes(lists, codes)|
  {
    hide AllOwed; hide GoodCodes; hide FitsAt; hide Clashes;
    var blocked := Image(Clashes(lists, codes), es);
    forall y | r <= y < h ensures y in Used(check, r, h) + blocked {
      WhyUnfit(check, last, r, lists, es, codes, y);
    }
    IntervalSize(r, h, Used(check, r, h) + blocked);
    ImageNotLarger(Clashes(lists, codes), es);
  }

  // ---------- One list after another ----------

  // After the lists got the entries es, the chain goes on from r in order, and the slots in use
  // ahead are few.
  ghost predicate Front(s: Slots, last: nat, r: nat, lists: seq<seq<nat>>, es: seq<nat>) {
    NoneEmpty(lists) && 1 <= r && Lined(s, last, r) && |s.used| == |s.fails| && |s.check| == last + MAX_CODE &&
    LIMIT < last && s.fails[0] == 0 && s.used[0] <= Taking(lists) && AllOwed(s.check, r, lists, es) &&
    r + |Used(s.check, r, LIMIT)| <= Reach(lists) &&
    (r >= Lowest(lists) || (lists == [] && s.check[r] != 0))
  }

  lemma {:induction false} LeastFit(check: seq<nat>, codes: seq<nat>, r: nat, h: nat) returns (x: nat)
    requires codes != [] && r <= h
    ensures r <= x <= h && (x < h ==> FitsAt(check, codes, x)) && forall y :: r <= y < x ==> !FitsAt(check, codes, y)
    decreases h - r
  {
    if r == h || FitsAt(check, codes, r) {
      x := r;
    } else {
      x := LeastFit(check, codes, r + 1, h);
    }
  }

  // The next list gets an entry between its lowest and its highest.
  lemma NextEntry(s: Slots, last: nat, r: nat, lists: seq<seq<nat>>, es: seq<nat>, codes: seq<nat>) returns (x: nat)
    requires Front(s, last, r, lists, es) && codes != [] && GoodCodes(codes) && Room(lists, codes)
    ensures FirstFit(s.check, codes, r, x) && r <= x && Lowest(lists) <= x <= Highest(lists, codes)
    ensures x - r <= |Used(s.check, r, x)| + |Clashes(lists, codes)|
    ensures Hunt(s, codes).Found? && Hunt(s, codes).entry == x && Lined(Hunt(s, codes).s, last, x + 1)
    ensures var t := Hunt(s, codes).s;
            t.check == s.check && t.used == s.used && |t.fails| == |s.fails| && t.fails[0] == 0
  {
    hide Fits; hide GoodCodes; hide AllOwed; hide Clashes; hide Hunt; hide Reach; hide Lined; hide Taking;
    var limit := r + |Used(s.check, r, LIMIT)| + |Clashes(lists, codes)| + 1;
    x := LeastFit(s.check, codes, r, limit);
    FewUnfit(s.check, last, r, lists, es, codes, x);
    SubsetSize(Used(s.check, r, x), Used(s.check, r, LIMIT));
    if s.check[r] != 0 { UsedUnfit(s, r, codes, x); }
    LinedUsed(s, last, r);
    HuntFinds(s, last, r, codes, x);
  }

  lemma UsedUnfit(s: Slots, r: nat, codes: seq<nat>, x: nat)
    requires codes != [] && FitsAt(s.check, codes, x) && r < |s.check| && s.check[r] != 0
    ensures x != r
  {
    if x == r { FitsAtMin(s, codes, x); }
  }

  lemma LinedUsed(s: Slots, last: nat, r: nat)
    requires Lined(s, last, r)
    ensures s.used != []
  {}

  // The slots after the codes were placed with slot x for the least.
  ghost predicate PlacedThere(s: Slots, s': Slots, codes: seq<nat>, x: nat, owner: nat)
    requires codes != []
  {
    Overwritten(s.check, s'.check, codes, x, owner) && |s'.used| == |s.used| > 0 &&
    s'.used[0] <= s.used[0] + |codes| && owner != 0 &&
    s'.chain == s.chain && s'.dense == s.dense && s'.fails == s.fails
  }

  ghost predicate Overwritten(check: seq<nat>, check': seq<nat>, codes: seq<nat>, x: nat, owner: nat)
    requires codes != []
  {
    |check'| == |check| &&
    forall y :: 0 <= y < |check| ==> check'[y] == if y - x + MinCode(codes) in codes then owner else check[y]
  }

  // Slots in use ahead are those of before and the near ones of the new list.
  lemma UsedAfter(s: Slots, s': Slots, r: nat, codes: seq<nat>, x: nat, owner: nat)
    requires codes != [] && PlacedThere(s, s', codes, x, owner) && r <= x < LIMIT
    ensures |Used(s'.check, x + 1, LIMIT)| + |Used(s.check, r, x)| <= |Used(s.check, r, LIMIT)| + |Near(codes)|
  {
    var near := Shifted(Near(codes), x);
    var after := Used(s'.check, x + 1, LIMIT);
    forall y | y in after ensures y in Used(s.check, x + 1, LIMIT) + near {
      if y - x + MinCode(codes) in codes {
        assert y - x in Near(codes);
        InShifted(Near(codes), x, y - x);
      }
    }
    SubsetSize(after, Used(s.check, x + 1, LIMIT) + near);
    ShiftedSize(Near(codes), x);
    SubsetSize(Used(s.check, x + 1, LIMIT) + Used(s.check, r, x), Used(s.check, r, LIMIT));
    assert Used(s.check, x + 1, LIMIT) !! Used(s.check, r, x);
  }

  ghost function Shifted(a: set<nat>, x: nat): set<nat> {
    set o | o in a :: x + o
  }

  lemma InShifted(a: set<nat>, x: nat, o: nat)
    requires o in a
    ensures x + o in Shifted(a, x)
  {}

  lemma {:induction false} ShiftedSize(a: set<nat>, x: nat)
    ensures |Shifted(a, x)| <= |a|
    decreases |a|
  {
    if a != {} {
      var o :| o in a;
      ShiftedSize(a - {o}, x);
      forall y | y in Shifted(a, x) ensures y in Shifted(a - {o}, x) + {x + o} {
        var p :| p in a && y == x + p;
        if p != o { InShifted(a - {o}, x, p); }
      }
      SubsetSize(Shifted(a, x), Shifted(a - {o}, x) + {x + o});
    }
  }

  lemma OwedAfter(s: Slots, s': Slots, r: nat, lists: seq<seq<nat>>, es: seq<nat>, codes: seq<nat>, x: nat, owner: nat)
    requires NoneEmpty(lists) && AllOwed(s.check, r, lists, es) && r <= x
    requires codes != [] && PlacedThere(s, s', codes, x, owner)
    ensures NoneEmpty(lists + [codes]) && AllOwed(s'.check, x + 1, lists + [codes], es + [x])
  {
    forall y | x + 1 < y < |s'.check| && s'.check[y] != 0 ensures Owed(lists + [codes], es + [x], y) {
      if y - x + MinCode(codes) in codes {
        assert TakenFor(lists + [codes], es + [x], |lists|, y);
      } else {
        assert Owed(lists, es, y);
        var j :| 0 <= j < |lists| && TakenFor(lists, es, j, y);
        assert TakenFor(lists + [codes], es + [x], j, y);
      }
    }
  }

  lemma ReachSnoc(lists: seq<seq<nat>>, codes: seq<nat>)
    requires NoneEmpty(lists) && codes != []
    ensures NoneEmpty(lists + [codes]) && Taking(lists + [codes]) == Taking(lists) + |codes|
    ensures Reach(lists + [codes]) == Highest(lists, codes) + 1 + |Near(codes)|
  {
    assert (lists + [codes])[..|lists|] == lists;
  }

  // Placing the next list.
  lemma NextFront(s: Slots, last: nat, r: nat, lists: seq<seq<nat>>, es: seq<nat>, codes: seq<nat>, s': Slots, x: nat,
                  owner: nat)
    requires Front(s, last, r, lists, es) && codes != [] && r <= x && Lowest(lists) <= x < LIMIT
    requires x - r <= |Used(s.check, r, x)| + |Clashes(lists, codes)|
    requires Hunt(s, codes).Found? && Hunt(s, codes).s.check == s.check && Hunt(s, codes).s.used == s.used
    requires Lined(Hunt(s, codes).s, last, x + 1) && PlacedThere(Hunt(s, codes).s, s', codes, x, owner)
    requires |Hunt(s, codes).s.fails| == |s.fails| && Hunt(s, codes).s.fails[0] == 0
    ensures Front(s', last, x + 1, lists + [codes], es + [x])
  {
    hide Clashes; hide Hunt; hide Reach; hide Taking; hide AllOwed; hide Range; hide Used; hide Near;
    var t := Hunt(s, codes).s;
    UsedAfter(t, s', r, codes, x, owner);
    OwedAfter(t, s', r, lists, es, codes, x, owner);
    ReachSnoc(lists, codes);
  }

  lemma FrontStart(s: Slots, last: nat)
    requires Untouched(s, last) && LIMIT < last
    ensures Front(s, last, 1, [], [])
  {
    assert s.chain[..last - 1 + 1] == Range(1, last);
    assert |s.used| > 0;
    assert Used(s.check, 1, LIMIT) == {1};
    assert Reach([]) == 2;
  }
}
