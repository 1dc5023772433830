// What the matching automaton means: the state after reading a string of codes is the
// longest suffix of it that is a path of the trie, and its output is the byte length of the
// longest pattern that ends there.
module Automaton {
  import opened Utf8

  type Path = seq<nat>

  predicate IsSuffix(s: Path, u: Path) {
    |s| <= |u| && u[|u| - |s|..] == s
  }

  lemma SuffixOfSuffix(s: Path, t: Path, u: Path)
    requires IsSuffix(s, u) && IsSuffix(t, u) && |s| <= |t|
    ensures IsSuffix(s, t)
  {
    assert t[|t| - |s|..] == u[|u| - |s|..];
  }

  lemma SuffixTransitive(s: Path, t: Path, u: Path)
    requires IsSuffix(s, t) && IsSuffix(t, u)
    ensures IsSuffix(s, u)
  {
    assert u[|u| - |s|..] == t[|t| - |s|..];
  }

  lemma SuffixSnoc(s: Path, u: Path, c: nat)
    ensures IsSuffix(s + [c], u + [c]) <==> IsSuffix(s, u)
  {
    if |s| <= |u| {
      assert (u + [c])[|u| - |s|..] == u[|u| - |s|..] + [c];
      if u[|u| - |s|..] + [c] == s + [c] {
        assert (u[|u| - |s|..] + [c])[..|s|] == (s + [c])[..|s|];
      }
    }
  }

  ghost predicate PrefixClosed(T: set<Path>) {
    [] in T && forall x :: x in T && x != [] ==> x[..|x| - 1] in T
  }

  // s is the longest suffix of u that is a path.
  ghost predicate IsState(T: set<Path>, u: Path, s: Path) {
    s in T && IsSuffix(s, u) && forall t :: t in T && IsSuffix(t, u) ==> |t| <= |s|
  }

  // f is the longest proper suffix of x that is a path.
  ghost predicate IsFail(T: set<Path>, x: Path, f: Path) {
    x != [] && IsState(T, x[1..], f)
  }

  // ---------- Following fail links ----------

  // Every suffix of u that can be extended by c is no longer than d.
  ghost predicate Candidate(T: set<Path>, u: Path, c: nat, d: Path) {
    d in T && IsSuffix(d, u) && forall t :: t + [c] in T && IsSuffix(t, u) ==> |t| <= |d|
  }

  lemma CandidateFirst(T: set<Path>, u: Path, c: nat, s: Path)
    requires PrefixClosed(T) && IsState(T, u, s)
    ensures Candidate(T, u, c, s)
  {
    forall t | t + [c] in T && IsSuffix(t, u)
      ensures |t| <= |s|
    {
      assert (t + [c])[..|t + [c]| - 1] == t;
    }
  }

  lemma CandidateNext(T: set<Path>, u: Path, c: nat, d: Path, f: Path)
    requires PrefixClosed(T) && Candidate(T, u, c, d) && d + [c] !in T && IsFail(T, d, f)
    ensures Candidate(T, u, c, f) && |f| < |d|
  {
    assert IsSuffix(d[1..], d);
    SuffixTransitive(f, d[1..], d);
    SuffixTransitive(f, d, u);
    forall t | t + [c] in T && IsSuffix(t, u)
      ensures |t| <= |f|
    {
      assert (t + [c])[..|t + [c]| - 1] == t;
      SuffixOfSuffix(t, d, u);
      assert |t| == |d| ==> t == d;
      SuffixOfSuffix(t, d[1..], d);
    }
  }

  lemma CandidateHit(T: set<Path>, u: Path, c: nat, d: Path)
    requires PrefixClosed(T) && Candidate(T, u, c, d) && d + [c] in T
    ensures IsState(T, u + [c], d + [c])
  {
    SuffixSnoc(d, u, c);
    forall t | t in T && IsSuffix(t, u + [c])
      ensures |t| <= |d| + 1
    {
      if t != [] { LastOfSuffix(t, u, c); }
    }
  }

  lemma CandidateMiss(T: set<Path>, u: Path, c: nat)
    requires PrefixClosed(T) && Candidate(T, u, c, []) && [c] !in T
    ensures IsState(T, u + [c], [])
  {
    forall t | t in T && IsSuffix(t, u + [c])
      ensures |t| <= 0
    {
      if t != [] { LastOfSuffix(t, u, c); }
      assert t == [] || t == [c];
    }
  }

  lemma LastOfSuffix(t: Path, u: Path, c: nat)
    requires t != [] && IsSuffix(t, u + [c])
    ensures t == t[..|t| - 1] + [c] && IsSuffix(t[..|t| - 1], u)
  {
    var v := u + [c];
    assert t[|t| - 1] == v[|v| - 1] == c;
    SuffixSnoc(t[..|t| - 1], u, c);
  }

  // ---------- Outputs ----------

  // The encoded length of a path.
  function Size(p: Path): nat {
    if p == [] then 0 else Size(p[..|p| - 1]) + Width(p[|p| - 1])
  }

  // z is the size of the longest pattern that is a suffix of u, or 0 if there is none.
  ghost predicate IsOutput(P: set<Path>, u: Path, z: nat) {
    (z == 0 || exists p :: p in P && IsSuffix(p, u) && Size(p) == z) &&
    forall p :: p in P && IsSuffix(p, u) ==> Size(p) <= z
  }

  // The output of a state is the output of everything read.
  lemma OutputOfState(T: set<Path>, P: set<Path>, u: Path, s: Path, z: nat)
    requires P <= T && IsState(T, u, s) && IsOutput(P, s, z)
    ensures IsOutput(P, u, z)
  {
    forall p | p in P && IsSuffix(p, u) ensures IsSuffix(p, s) { SuffixOfSuffix(p, s, u); }
    forall p | p in P && IsSuffix(p, s) ensures IsSuffix(p, u) { SuffixTransitive(p, s, u); }
  }

  function Max(a: nat, b: nat): nat { if a < b then b else a }

  // The output of a path is its own size or that of its fail path, whichever is larger.
  lemma OutputOfPath(T: set<Path>, P: set<Path>, x: Path, f: Path, own: nat, z: nat)
    requires P <= T && IsFail(T, x, f) && IsOutput(P, f, z)
    requires own == if x in P then Size(x) else 0
    ensures IsOutput(P, x, Max(own, z))
  {
    assert IsSuffix(x[1..], x);
    SuffixTransitive(f, x[1..], x);
    forall p | p in P && IsSuffix(p, x)
      ensures p == x || IsSuffix(p, f)
    {
      if |p| == |x| {
        assert p == x;
      } else {
        SuffixOfSuffix(p, x[1..], x);
        SuffixOfSuffix(p, f, x[1..]);
      }
    }
    forall p | p in P && IsSuffix(p, f) ensures IsSuffix(p, x) { SuffixTransitive(p, f, x); }
    assert IsSuffix(x, x);
  }
}
