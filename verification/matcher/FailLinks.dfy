// The breadth-first pass over the pointer trie that gives every node its fail link and its
// output. It is proved to give every node the longest proper suffix that is a path, and the
// size of the longest pattern that is a suffix of its path.
module FailLinks {
  import opened Utf8
  import opened Automaton
  import opened PatternTrie

  // ---------- Breadth-first order ----------

  // A breadth-first pass over the trie is at work on curr, whose children for the codes in rest
  // are still to come; done are the nodes it has taken up and queue those it has met.
  ghost predicate Frontier(nodes: seq<Node>, paths: seq<Path>, parents: seq<nat>, done: set<nat>, queue: seq<nat>,
                           curr: nat, rest: set<nat>) {
    |nodes| == |paths| == |parents| && 0 in done && curr in done && curr < |nodes| &&
    rest <= nodes[curr].children.Keys &&
    (forall n :: n in done ==> n < |nodes|) &&
    (forall i :: 0 <= i < |queue| ==> Waiting(paths, done, curr, queue[i])) &&
    (forall i, j :: 0 <= i < j < |queue| ==> queue[i] != queue[j] && |paths[queue[i]]| <= |paths[queue[j]]|) &&
    (forall m :: 0 < m < |nodes| ==> Met(nodes, parents, done, queue, curr, rest, m))
  }

  // A queued node is new and no more than one level below curr.
  ghost predicate Waiting(paths: seq<Path>, done: set<nat>, curr: nat, m: nat)
    requires curr < |paths|
  {
    0 < m < |paths| && m !in done && |paths[curr]| <= |paths[m]| <= |paths[curr]| + 1
  }

  // A node has been met exactly if its parent was taken up and has dealt with it.
  ghost predicate Met(nodes: seq<Node>, parents: seq<nat>, done: set<nat>, queue: seq<nat>, curr: nat, rest: set<nat>,
                      m: nat)
    requires m < |nodes| == |parents|
  {
    (m in done || m in queue) <==> (parents[m] in done && !(parents[m] == curr && nodes[m].code in rest))
  }

  ghost function MetSet(done: set<nat>, queue: seq<nat>): set<nat> {
    done + set n | n in queue
  }

  lemma NothingQueued(done: set<nat>)
    ensures MetSet(done, []) == done
  {}

  // The pass before anything is queued.
  lemma FrontierFirst(nodes: seq<Node>, paths: seq<Path>, parents: seq<nat>)
    requires Linked(nodes, paths, parents)
    ensures Frontier(nodes, paths, parents, {0}, [], 0, nodes[0].children.Keys)
  {
    forall m | 0 < m < |nodes|
      ensures Met(nodes, parents, {0}, [], 0, nodes[0].children.Keys, m)
    {
      assert ParentOk(nodes, parents[m], m);
    }
  }

  lemma FrontierStep(nodes: seq<Node>, paths: seq<Path>, parents: seq<nat>, done: set<nat>, queue: seq<nat>, curr: nat,
                     rest: set<nat>, c: nat)
    requires Linked(nodes, paths, parents) && Frontier(nodes, paths, parents, done, queue, curr, rest) && c in rest
    ensures var m := nodes[curr].children[c];
            curr < m < |nodes| && m !in MetSet(done, queue) &&
            Frontier(nodes, paths, parents, done, queue + [m], curr, rest - {c})
  {
    ChildPath(nodes, paths, parents, curr, c);
    var m := nodes[curr].children[c];
    assert Met(nodes, parents, done, queue, curr, rest, m);
    forall k | 0 < k < |nodes|
      ensures Met(nodes, parents, done, queue + [m], curr, rest - {c}, k)
    {
      assert Met(nodes, parents, done, queue, curr, rest, k);
      assert ParentOk(nodes, parents[k], k);
    }
  }

  lemma FrontierPop(nodes: seq<Node>, paths: seq<Path>, parents: seq<nat>, done: set<nat>, queue: seq<nat>, curr: nat)
    requires Linked(nodes, paths, parents) && Frontier(nodes, paths, parents, done, queue, curr, {}) && queue != []
    ensures queue[0] < |nodes| && queue[0] !in done
    ensures Frontier(nodes, paths, parents, done + {queue[0]}, queue[1..], queue[0], nodes[queue[0]].children.Keys)
    ensures MetSet(done + {queue[0]}, queue[1..]) == MetSet(done, queue)
  {
    var next := queue[0];
    assert Waiting(paths, done, curr, next);
    var done' := done + {next};
    assert queue == [next] + queue[1..];
    forall i | 0 <= i < |queue[1..]|
      ensures Waiting(paths, done', next, queue[1..][i])
    {
      assert Waiting(paths, done, curr, queue[i + 1]);
    }
    forall m | 0 < m < |nodes|
      ensures Met(nodes, parents, done', queue[1..], next, nodes[next].children.Keys, m)
    {
      MetPop(nodes, paths, parents, done, queue, curr, m);
    }
  }

  lemma MetPop(nodes: seq<Node>, paths: seq<Path>, parents: seq<nat>, done: set<nat>, queue: seq<nat>, curr: nat,
               m: nat)
    requires Linked(nodes, paths, parents) && queue != [] && queue[0] !in done && 0 < queue[0] < |nodes|
    requires 0 < m < |nodes|
    requires Met(nodes, parents, done, queue, curr, {}, m) && Met(nodes, parents, done, queue, curr, {}, queue[0])
    ensures Met(nodes, parents, done + {queue[0]}, queue[1..], queue[0], nodes[queue[0]].children.Keys, m)
  {
    assert ParentOk(nodes, parents[m], m);
    assert queue == [queue[0]] + queue[1..];
  }

  // Nodes no deeper than curr have all been met.
  lemma {:induction false} FrontierCovers(nodes: seq<Node>, paths: seq<Path>, parents: seq<nat>, done: set<nat>,
                                          queue: seq<nat>, curr: nat, rest: set<nat>, m: nat)
    requires Linked(nodes, paths, parents) && Frontier(nodes, paths, parents, done, queue, curr, rest)
    requires m < |nodes| && |paths[m]| <= |paths[curr]|
    ensures m in MetSet(done, queue)
    decreases m
  {
    if m > 0 {
      var p := parents[m];
      assert ParentOk(nodes, p, m);
      ChildPath(nodes, paths, parents, p, nodes[m].code);
      FrontierCovers(nodes, paths, parents, done, queue, curr, rest, p);
      assert Met(nodes, parents, done, queue, curr, rest, m);
    }
  }

  // When nothing is left every node has been met.
  lemma {:induction false} FrontierEnd(nodes: seq<Node>, paths: seq<Path>, parents: seq<nat>, done: set<nat>, curr: nat,
                                       m: nat)
    requires Linked(nodes, paths, parents) && Frontier(nodes, paths, parents, done, [], curr, {})
    requires m < |nodes|
    ensures m in done
    decreases m
  {
    if m > 0 {
      assert ParentOk(nodes, parents[m], m);
      FrontierEnd(nodes, paths, parents, done, curr, parents[m]);
      assert Met(nodes, parents, done, [], curr, {}, m);
    }
  }

  // At most one step per node is left.
  lemma FrontierLeft(nodes: seq<Node>, paths: seq<Path>, parents: seq<nat>, done: set<nat>, queue: seq<nat>, curr: nat,
                     rest: set<nat>)
    requires Frontier(nodes, paths, parents, done, queue, curr, rest)
    ensures |done| <= |nodes|
  {
    SetOfNats(done, |nodes|);
  }

  lemma {:induction false} SetOfNats(s: set<nat>, n: nat)
    requires forall x :: x in s ==> x < n
    ensures |s| <= n
  {
    if n > 0 {
      SetOfNats(s - {n - 1}, n - 1);
      assert s <= (s - {n - 1}) + {n - 1};
    } else {
      assert s == {};
    }
  }

  // ---------- Final nodes ----------

  // Node n has its final fail link and output.
  ghost predicate Final(nodes: seq<Node>, paths: seq<Path>, P: set<Path>, n: nat)
    requires |nodes| == |paths| && n < |nodes|
  {
    IsOutput(P, paths[n], nodes[n].matched) &&
    (n > 0 ==> nodes[n].fail < |nodes| && IsFail(PathSet(paths), paths[n], paths[nodes[n].fail]))
  }

  ghost predicate Own(nodes: seq<Node>, paths: seq<Path>, P: set<Path>, n: nat)
    requires |nodes| == |paths| && n < |nodes|
  {
    nodes[n].matched == if paths[n] in P then Size(paths[n]) else 0
  }

  // The nodes of F are final and all others still have their own sizes.
  ghost predicate Settled(nodes: seq<Node>, paths: seq<Path>, P: set<Path>, F: set<nat>) {
    |nodes| == |paths| && P <= PathSet(paths) &&
    forall n :: 0 <= n < |nodes| ==> if n in F then Final(nodes, paths, P, n) else Own(nodes, paths, P, n)
  }

  // Every node no deeper than d is in F.
  ghost predicate Covers(paths: seq<Path>, F: set<nat>, d: nat) {
    forall n :: 0 <= n < |paths| && |paths[n]| <= d ==> n in F
  }

  // Two tries differ at most in fail links and sizes.
  ghost predicate SameShape(nodes: seq<Node>, nodes': seq<Node>) {
    |nodes'| == |nodes| &&
    forall k :: 0 <= k < |nodes| ==> nodes'[k].children == nodes[k].children && nodes'[k].code == nodes[k].code
  }

  lemma LinkedSame(nodes: seq<Node>, nodes': seq<Node>, paths: seq<Path>, parents: seq<nat>)
    requires Linked(nodes, paths, parents) && SameShape(nodes, nodes')
    ensures Linked(nodes', paths, parents)
  {
    forall k, c | 0 <= k < |nodes'| && c in nodes'[k].children
      ensures ChildOk(nodes', paths, k, c)
    {
      assert c in nodes[k].children && ChildOk(nodes, paths, k, c);
    }
    forall m | 0 < m < |nodes'| ensures ParentOk(nodes', parents[m], m) {
      assert ParentOk(nodes, parents[m], m);
    }
  }

  lemma FrontierSame(nodes: seq<Node>, nodes': seq<Node>, paths: seq<Path>, parents: seq<nat>, done: set<nat>,
                     queue: seq<nat>, curr: nat, rest: set<nat>)
    requires Frontier(nodes, paths, parents, done, queue, curr, rest) && SameShape(nodes, nodes')
    ensures Frontier(nodes', paths, parents, done, queue, curr, rest)
  {
    forall m | 0 < m < |nodes'| ensures Met(nodes', parents, done, queue, curr, rest, m) {
      assert Met(nodes, parents, done, queue, curr, rest, m);
    }
  }

  lemma SettledFinal(nodes: seq<Node>, paths: seq<Path>, parents: seq<nat>, P: set<Path>, F: set<nat>, n: nat)
    requires Linked(nodes, paths, parents) && Settled(nodes, paths, P, F) && n < |nodes| && n in F
    ensures |nodes| == |paths| && Final(nodes, paths, P, n) && (n > 0 ==> paths[n] != [])
  {}

  lemma ChildPath(nodes: seq<Node>, paths: seq<Path>, parents: seq<nat>, n: nat, c: nat)
    requires Linked(nodes, paths, parents) && n < |nodes| && c in nodes[n].children
    ensures var m := nodes[n].children[c];
            n < m < |nodes| == |paths| && 1 <= c <= MAX_CODE && paths[m] == paths[n] + [c] && nodes[m].code == c &&
            parents[m] == n
  {
    assert ChildOk(nodes, paths, n, c);
    var m := nodes[n].children[c];
    assert ParentOk(nodes, parents[m], m);
    assert ChildOk(nodes, paths, parents[m], c);
    assert paths[m][..|paths[m]| - 1] == paths[n] && paths[m][..|paths[m]| - 1] == paths[parents[m]];
  }

  // Giving node m its fail link and the larger size makes it final.
  lemma Settle(nodes: seq<Node>, paths: seq<Path>, parents: seq<nat>, P: set<Path>, F: set<nat>, m: nat, f: nat)
    requires Linked(nodes, paths, parents) && Settled(nodes, paths, P, F) && 0 < m < |nodes| == |paths| && m !in F
    requires f < |nodes| && f in F && IsFail(PathSet(paths), paths[m], paths[f])
    ensures var nodes' := nodes[m := nodes[m].(fail := f, matched := Max(nodes[m].matched, nodes[f].matched))];
            SameShape(nodes, nodes') && Settled(nodes', paths, P, F + {m})
  {
    hide Linked; hide IsFail; hide IsOutput; hide Size; hide PathSet;
    var nodes' := nodes[m := nodes[m].(fail := f, matched := Max(nodes[m].matched, nodes[f].matched))];
    assert Own(nodes, paths, P, m) && Final(nodes, paths, P, f);
    OutputOfPath(PathSet(paths), P, paths[m], paths[f], nodes[m].matched, nodes[f].matched);
    forall n | 0 <= n < |nodes'|
      ensures if n in F + {m} then Final(nodes', paths, P, n) else Own(nodes', paths, P, n)
    {
      assert n in F ==> Final(nodes, paths, P, n);
      assert n !in F ==> Own(nodes, paths, P, n);
    }
  }

  // ---------- The pass ----------

  // Follows fail links from curr until code c can be read. Depth falls at every link.
  method Chase(nodes: seq<Node>, curr: nat, c: nat, ghost paths: seq<Path>, ghost parents: seq<nat>, ghost P: set<Path>,
               ghost F: set<nat>)
    returns (dest: nat)
    requires Linked(nodes, paths, parents) && Settled(nodes, paths, P, F)
    requires 0 < curr < |nodes| == |paths| && Covers(paths, F, |paths[curr]|)
    ensures dest < |nodes| && |paths[dest]| <= |paths[curr]|
    ensures IsFail(PathSet(paths), paths[curr] + [c], paths[dest])
  {
    hide Linked; hide Settled; hide PathSet; hide IsState; hide Candidate; hide IsOutput;
    SettledFinal(nodes, paths, parents, P, F, curr);
    ghost var T, u := PathSet(paths), paths[curr][1..];
    PathsArePrefixClosed(nodes, paths, parents);
    RootPath(nodes, paths, parents);
    hide PrefixClosed;
    dest := nodes[curr].fail;
    CandidateFirst(T, u, c, paths[dest]);
    StateShort(T, u, paths[dest]);
    while dest != 0 && c !in nodes[dest].children
      invariant dest < |nodes| && Candidate(T, u, c, paths[dest]) && |paths[dest]| < |paths[curr]|
      decreases |paths[dest]|
    {
      SettledFinal(nodes, paths, parents, P, F, dest);
      ChildIffPath(nodes, paths, parents, dest, c);
      CandidateNext(T, u, c, paths[dest], paths[nodes[dest].fail]);
      dest := nodes[dest].fail;
    }
    ChildIffPath(nodes, paths, parents, dest, c);
    assert (paths[curr] + [c])[1..] == u + [c];
    if c in nodes[dest].children {
      CandidateHit(T, u, c, paths[dest]);
      ChildPath(nodes, paths, parents, dest, c);
      dest := nodes[dest].children[c];
    } else {
      assert paths[dest] + [c] == [c];
      CandidateMiss(T, u, c);
    }
  }

  lemma StateShort(T: set<Path>, u: Path, s: Path)
    requires IsState(T, u, s)
    ensures |s| <= |u|
  {}

  // A node just below the root fails to the root.
  lemma RootFails(nodes: seq<Node>, paths: seq<Path>, parents: seq<nat>, P: set<Path>, F: set<nat>, c: nat)
    requires Linked(nodes, paths, parents)
    ensures |nodes| == |paths| > 0 && IsFail(PathSet(paths), paths[0] + [c], paths[0])
  {
    assert paths[0] == [] && paths[0] in PathSet(paths);
  }

  // The root is final from the start: no proper suffix, no output.
  lemma RootFinal(nodes: seq<Node>, paths: seq<Path>, parents: seq<nat>, P: set<Path>)
    requires Linked(nodes, paths, parents) && Holds(nodes, paths, P)
    ensures Settled(nodes, paths, P, {0})
  {
    forall n | 0 <= n < |nodes|
      ensures if n in {0} then Final(nodes, paths, P, n) else Own(nodes, paths, P, n)
    {
      assert paths[0] == [];
    }
  }

  // Sets the fail link and output of the children of curr and queues them, in any order.
  method LinkChildren(trie: Trie, queue: seq<nat>, curr: nat, ghost done: set<nat>,
                      ghost P: set<Path>) returns (queue': seq<nat>)
    requires trie.Valid() && curr < |trie.nodes|
    requires Frontier(trie.nodes, trie.paths, trie.parents, done, queue, curr, trie.nodes[curr].children.Keys)
    requires Settled(trie.nodes, trie.paths, P, MetSet(done, queue))
    modifies trie`nodes
    ensures trie.Valid() && SameShape(old(trie.nodes), trie.nodes)
    ensures Frontier(trie.nodes, trie.paths, trie.parents, done, queue', curr, {})
    ensures Settled(trie.nodes, trie.paths, P, MetSet(done, queue'))
  {
    hide Linked; hide Frontier; hide Settled; hide IsFail; hide PathSet; hide MetSet;
    queue' := queue;
    var rest := trie.nodes[curr].children.Keys;
    while rest != {}
      invariant trie.Valid() && SameShape(old(trie.nodes), trie.nodes)
      invariant Frontier(trie.nodes, trie.paths, trie.parents, done, queue', curr, rest)
      invariant Settled(trie.nodes, trie.paths, P, MetSet(done, queue'))
      invariant rest <= trie.nodes[curr].children.Keys
      decreases |rest|
    {
      var c :| c in rest;
      var next := LinkChild(trie, queue', curr, c, rest, done, P);
      queue' := queue' + [next];
      rest := rest - {c};
    }
  }

  method LinkChild(trie: Trie, queue: seq<nat>, curr: nat, c: nat, ghost rest: set<nat>, ghost done: set<nat>,
                   ghost P: set<Path>) returns (next: nat)
    requires trie.Valid() && c in rest && curr < |trie.nodes| && c in trie.nodes[curr].children
    requires Frontier(trie.nodes, trie.paths, trie.parents, done, queue, curr, rest)
    requires Settled(trie.nodes, trie.paths, P, MetSet(done, queue))
    modifies trie`nodes
    ensures trie.Valid() && SameShape(old(trie.nodes), trie.nodes)
    ensures Frontier(trie.nodes, trie.paths, trie.parents, done, queue + [next], curr, rest - {c})
    ensures Settled(trie.nodes, trie.paths, P, MetSet(done, queue + [next]))
  {
    hide Linked; hide Frontier; hide Settled; hide IsFail; hide PathSet;
    ghost var F := MetSet(done, queue);
    ghost var paths, parents := trie.paths, trie.parents;
    var nodes := trie.nodes;
    next := nodes[curr].children[c];
    ChildPath(nodes, paths, parents, curr, c);
    FrontierStep(nodes, paths, parents, done, queue, curr, rest, c);
    CoversMet(nodes, paths, parents, done, queue, curr, rest);
    var dest := 0;
    if curr == 0 {
      RootFails(nodes, paths, parents, P, F, c);
    } else {
      dest := Chase(nodes, curr, c, paths, parents, P, F);
    }
    assert dest in F;
    Settle(nodes, paths, parents, P, F, next, dest);
    trie.nodes := nodes[next := nodes[next].(fail := dest, matched := Max(nodes[next].matched, nodes[dest].matched))];
    LinkedSame(nodes, trie.nodes, paths, parents);
    FrontierSame(nodes, trie.nodes, paths, parents, done, queue + [next], curr, rest - {c});
    assert MetSet(done, queue + [next]) == F + {next};
  }

  lemma CoversMet(nodes: seq<Node>, paths: seq<Path>, parents: seq<nat>, done: set<nat>, queue: seq<nat>, curr: nat,
                  rest: set<nat>)
    requires Linked(nodes, paths, parents) && Frontier(nodes, paths, parents, done, queue, curr, rest) && curr < |nodes|
    ensures |paths| == |nodes| && Covers(paths, MetSet(done, queue), |paths[curr]|)
  {
    assert |paths| == |nodes|;
    forall n | 0 <= n < |paths| && |paths[n]| <= |paths[curr]|
      ensures n in MetSet(done, queue)
    {
      FrontierCovers(nodes, paths, parents, done, queue, curr, rest, n);
    }
  }

  // Sets every fail link and output, breadth first from the root.
  method SetFailLinks(trie: Trie, ghost P: set<Path>)
    requires trie.Valid() && Holds(trie.nodes, trie.paths, P)
    modifies trie`nodes
    ensures trie.Valid() && SameShape(old(trie.nodes), trie.nodes)
    ensures |trie.paths| == |trie.nodes| && forall n :: 0 <= n < |trie.nodes| ==> Final(trie.nodes, trie.paths, P, n)
  {
    hide Linked; hide Frontier; hide Settled; hide IsFail; hide PathSet; hide MetSet; hide Final; hide Holds;
    RootPath(trie.nodes, trie.paths, trie.parents);
    FrontierFirst(trie.nodes, trie.paths, trie.parents);
    RootFinal(trie.nodes, trie.paths, trie.parents, P);
    ghost var done: set<nat> := {0};
    ghost var curr: nat := 0;
    NothingQueued(done);
    var queue := LinkChildren(trie, [], 0, done, P);
    FrontierLeft(trie.nodes, trie.paths, trie.parents, done, queue, curr, {});
    while queue != []
      invariant trie.Valid() && SameShape(old(trie.nodes), trie.nodes)
      invariant Frontier(trie.nodes, trie.paths, trie.parents, done, queue, curr, {})
      invariant Settled(trie.nodes, trie.paths, P, MetSet(done, queue))
      invariant |done| <= |trie.nodes|
      decreases |trie.nodes| - |done|
    {
      FrontierPop(trie.nodes, trie.paths, trie.parents, done, queue, curr);
      curr := queue[0];
      done := done + {curr};
      FrontierLeft(trie.nodes, trie.paths, trie.parents, done, queue[1..], curr, trie.nodes[curr].children.Keys);
      queue := LinkChildren(trie, queue[1..], queue[0], done, P);
    }
    AllFinal(trie.nodes, trie.paths, trie.parents, P, done, curr);
  }

  lemma AllFinal(nodes: seq<Node>, paths: seq<Path>, parents: seq<nat>, P: set<Path>, done: set<nat>, curr: nat)
    requires Linked(nodes, paths, parents) && Frontier(nodes, paths, parents, done, [], curr, {})
    requires Settled(nodes, paths, P, MetSet(done, []))
    ensures |paths| == |nodes| && forall n :: 0 <= n < |nodes| ==> Final(nodes, paths, P, n)
  {
    assert |paths| == |nodes|;
    forall n | 0 <= n < |nodes| ensures Final(nodes, paths, P, n) {
      FrontierEnd(nodes, paths, parents, done, curr, n);
    }
  }
}
