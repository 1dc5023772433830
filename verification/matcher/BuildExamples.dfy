// Builds of particular patterns: which of them make a matcher, and what a search does on one that
// did not.
module BuildExamples {
  import opened Utf8
  import opened Automaton
  import opened PatternTrie
  import opened Allocation
  import opened OncePass
  import opened Counting
  import opened LinkedMachine
  import opened Searching
  import opened ZeroBase
  import opened ManyWords
  import opened FalseHit
  import opened DoubleArray

  function Numbers(t: Text): (p: Path)
    ensures |p| == |t| && forall i :: 0 <= i < |t| ==> p[i] == t[i]
  {
    seq(|t|, i requires 0 <= i < |t| => t[i])
  }

  // The codes of seven-bit text are its bytes.
  lemma {:induction false} SevenBit(t: Text)
    requires forall i :: 0 <= i < |t| ==> 0 < t[i] < 128
    ensures WellFormed(t) && Supported(t, false) && Codes(t, false) == Numbers(t)
    decreases |t|
  {
    if t != [] {
      SevenBit(t[1..]);
      assert Code(t[..1], false) == t[0];
      assert Numbers(t) == [t[0]] + Numbers(t[1..]);
    }
  }

  lemma CodesOfTwo(x: Text, y: Text)
    requires Acceptable([x, y], false)
    ensures WellFormed(x) && WellFormed(y)
    ensures PatternCodes([x, y], false) == {Codes(x, false), Codes(y, false)}
  {
    var patterns := [x, y];
    assert patterns[0] == x && patterns[1] == y;
  }

  // The word of n times the letter z with another letter after it.
  function Word(n: nat, last: Byte): (t: Text)
    ensures |t| == n + 1 && forall i :: 0 <= i < |t| ==> t[i] == if i < n then 122 else last
  {
    seq(n, i => 122) + [last]
  }

  lemma WordsGiven(n: nat)
    ensures var x, y := Word(n, 97), Word(n, 98);
            Acceptable([x, y], false) && PatternCodes([x, y], false) == {Numbers(x), Numbers(y)} &&
            PartAt(Numbers(x), Numbers(y), n) && Numbers(x)[n] == 97 && Numbers(y)[n] == 98
  {
    var x, y := Word(n, 97), Word(n, 98);
    SevenBit(x);
    SevenBit(y);
    CodesOfTwo(x, y);
    assert Numbers(x)[..n] == Numbers(y)[..n];
  }

  // Two words that part after n letters, with a and b: they are packed right unless the fork
  // would get the slot 97 of the letter a.
  method TwoWords(n: nat) returns (trie: DoubleArrayTrie)
    requires n + 2 < 510
    ensures trie.patterns == [Word(n, 97), Word(n, 98)] && (trie.Ready() <==> n != 95)
  {
    hide LinkedTrie; hide Once; hide Built; hide Acceptable; hide PatternCodes; hide Word; hide Numbers; hide PartAt;
    WordsGiven(n);
    trie := new DoubleArrayTrie([Word(n, 97), Word(n, 98)], false);
    TwoPatternsDecide(trie.plan, Numbers(Word(n, 97)), Numbers(Word(n, 98)), n, FIRST_LAST);
  }

  // The code of the first Hangul syllable.
  const SYLLABLES := 0x200

  // Words made of Hangul syllables: w words of C syllables altogether are packed right as long as
  // 2 + C + (w - 1) * (w - 1) / 2 stays below the limit.
  method HangulWords(patterns: seq<Text>, fold: bool) returns (trie: DoubleArrayTrie)
    requires Acceptable(patterns, fold) && TwiceHighest(PatternCodes(patterns, fold)) < 1020
    requires forall x, k :: x in PatternCodes(patterns, fold) && 0 <= k < |x| ==> x[k] >= SYLLABLES
    ensures trie.patterns == patterns && trie.Ready()
  {
    trie := new DoubleArrayTrie(patterns, fold);
    hide LinkedTrie; hide Once; hide Built; hide Acceptable; hide PatternCodes; hide TwiceHighest;
    FewWordsOnce(trie.plan, PatternCodes(patterns, fold), FIRST_LAST);
  }

  lemma ControlsGiven()
    ensures Acceptable([[2], [3]], false) && PatternCodes([[2], [3]], false) == CONTROLS
  {
    SevenBit([2]);
    SevenBit([3]);
    CodesOfTwo([2], [3]);
    assert Numbers([2]) == [2] && Numbers([3]) == [3];
  }

  // The first three bytes of a text about neither character: U+4E2D in UTF-8.
  const OTHER: Text := [0xE4, 0xB8, 0xAD]

  lemma BeginsThere(p: Text, t: Text, k: nat)
    requires OccursAt(p, t, k, false) && p != []
    ensures k < |t| && t[k] == p[0]
  {
    assert FoldAll(t[k..k + |p|], false)[0] == t[k] && FoldAll(p, false)[0] == p[0];
  }

  // No pattern occurs in that text.
  lemma NothingThere(x: nat)
    ensures WellFormed(OTHER) && Code(OTHER, false) == 0 && !Covered([[2], [3]], OTHER, false, x)
  {
    assert OTHER[..3] == OTHER && OTHER[3..] == [];
    if Covered([[2], [3]], OTHER, false, x) {
      var i: nat, k: nat :| i < 2 && CoveredBy([[2], [3]][i], OTHER, false, k, x);
      BeginsThere([[2], [3]][i], OTHER, k);
    }
  }

  // The control characters 2 and 3: the matcher is not built, and a search reports a character
  // that is in no pattern, and then may never end.
  method TwoControlCharacters() returns (trie: DoubleArrayTrie)
    ensures trie.patterns == [[2], [3]] && !trie.ignoreCase && !trie.Ready()
    ensures WellFormed(OTHER) && forall x :: !Covered(trie.patterns, OTHER, false, x)
    ensures var a := trie.Contents();
            LinksInside(a) && |a.base| >= 8 && TurnAt(a, ROOT, Code(OTHER, false)) == Goes(2) && a.output[2] == 1 &&
            Endless(a, 2, 3)
  {
    hide LinkedTrie; hide Once; hide Built; hide Acceptable; hide PatternCodes; hide TurnAt; hide LinksInside;
    hide Endless;
    hide Covered; hide Code;
    ControlsGiven();
    trie := new DoubleArrayTrie([[2], [3]], false);
    TwoPatternsDecide(trie.plan, [2], [3], 0, FIRST_LAST);
    FalseHitThenEndless(trie.plan, FIRST_LAST, trie.Contents());
    forall x: nat ensures !Covered(trie.patterns, OTHER, false, x) { NothingThere(x); }
    NothingThere(0);
  }
}
