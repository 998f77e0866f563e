/**
  Letters of a word, counted with multiplicity.

  A candidate can be spelled from the root word when every letter it uses
  occurs in the root word at least as often as in the candidate: the
  candidate's letters form a sub-multiset of the root word's letters.
  `Count` is the per-letter reference definition, `Fits` the multiset one,
  and `FitsIffCounts` says they agree.  `FirstIndex` and `RemoveAt` are the
  two string primitives the feasibility loop is built from.
*/
module Letters {
  import opened Wrappers

  /** Number of occurrences of `c` in `s`. */
  function Count(s: string, c: char): (n: nat)
    ensures n <= |s|
    ensures n == 0 <==> c !in s
  {
    if s == [] then 0 else (if s[0] == c then 1 else 0) + Count(s[1..], c)
  }

  /** The letters of `word` can all be drawn from those of `root`, each letter of `root` at most once. */
  predicate Fits(word: string, root: string) {
    multiset(word) <= multiset(root)
  }

  /** `Count` is the multiplicity of a letter in the string's multiset. */
  lemma {:induction false} CountIsMultiplicity(s: string, c: char)
    ensures Count(s, c) == multiset(s)[c]
  {
    if s != [] {
      assert s == [s[0]] + s[1..];
      CountIsMultiplicity(s[1..], c);
    }
  }

  /** No letter occurs more often in `word` than in `root`. */
  predicate NoLetterOverused(word: string, root: string) {
    forall c :: Count(word, c) <= Count(root, c)
  }

  /** A word fits the root exactly when no letter occurs more often in it than in the root. */
  lemma FitsIffCounts(word: string, root: string)
    ensures Fits(word, root) <==> NoLetterOverused(word, root)
  {
    forall c ensures Count(word, c) == multiset(word)[c] && Count(root, c) == multiset(root)[c] {
      CountIsMultiplicity(word, c);
      CountIsMultiplicity(root, c);
    }
    if !Fits(word, root) {
      var c :| multiset(word)[c] > multiset(root)[c];
      assert Count(word, c) > Count(root, c);
    }
  }

  /** Position of the first occurrence of `c` in `s`, if there is one. */
  function FirstIndex(s: string, c: char): (r: Option<nat>)
    ensures r.None? <==> c !in s
    ensures r.Some? ==> r.value < |s| && s[r.value] == c
    ensures r.Some? ==> forall j :: 0 <= j < r.value ==> s[j] != c
  {
    if s == [] then None
    else if s[0] == c then Some(0)
    else
      match FirstIndex(s[1..], c)
      case None => None
      case Some(k) => Some(k + 1)
  }

  /** `s` with the character at position `i` taken out. */
  function RemoveAt(s: string, i: nat): (r: string)
    requires i < |s|
    ensures |r| == |s| - 1
    ensures multiset(r) == multiset(s) - multiset{s[i]}
  {
    assert s == s[..i] + [s[i]] + s[i + 1..];
    s[..i] + s[i + 1..]
  }

  // Spelling from "silkworm": "silk" and "worms" fit; "silks" needs a
  // second 's' and "kills" a second 'l', though each of their letters occurs.

  lemma SilkFitsSilkworm()
    ensures Fits("silk", "silkworm")
  {
    var r := "silkworm";
    assert r == r[..4] + r[4..];
    assert r[..4] == "silk";
  }

  lemma WormsFitsSilkworm()
    ensures Fits("worms", "silkworm")
  {
    var r := "silkworm";
    assert r == r[..4] + r[4..];
    assert r[4..] == "worm";
    assert r[..4][0] == 's';
    assert "worms" == "worm" + ['s'];
    assert multiset("worms") == multiset("worm") + multiset{'s'};
  }

  lemma SilksDoesNotFitSilkworm()
    ensures !Fits("silks", "silkworm")
  {
    CountIsMultiplicity("silks", 's');
    CountIsMultiplicity("silkworm", 's');
  }

  lemma KillsDoesNotFitSilkworm()
    ensures !Fits("kills", "silkworm")
  {
    CountIsMultiplicity("kills", 'l');
    CountIsMultiplicity("silkworm", 'l');
  }
}
