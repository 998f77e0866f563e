/**
  The game's state and the operations that change it.

  `ContentView` holds the fields the view keeps as state: the words accepted
  this round (newest first), the root word, the round and total scores, and
  the alert shown for the last rejection.  The spell checker is a fixed
  predicate given at construction.
*/
module WordScramble {
  import opened Wrappers
  import opened Letters
  import opened Text
  import opened Validation

  class ContentView {
    var usedWords: seq<string>
    var rootWord: string
    var errorTitle: string
    var errorMessage: string
    var showingError: bool
    var roundScore: int
    var totalScore: int

    /** The spell checker's verdict: is this a correctly spelled English word? */
    const isReal: string -> bool

    /**
      The accepted words keep the round invariant, and the total includes the
      round, so neither score is negative.
    */
    ghost predicate Valid(): (b: bool)
      reads this`usedWords, this`rootWord, this`roundScore, this`totalScore
      ensures b ==> 0 <= |usedWords| <= roundScore <= totalScore
    {
      RoundInvariant(usedWords, rootWord, roundScore, isReal) && roundScore <= totalScore
    }

    /** The state before the first round: everything empty, both scores zero. */
    constructor (isReal: string -> bool)
      ensures Valid() && this.isReal == isReal
      ensures usedWords == [] && rootWord == "" && roundScore == 0 && totalScore == 0
      ensures errorTitle == "" && errorMessage == "" && !showingError
    {
      usedWords := [];
      rootWord := "";
      errorTitle := "";
      errorMessage := "";
      showingError := false;
      roundScore := 0;
      totalScore := 0;
      this.isReal := isReal;
    }

    /**
      Judge what the player typed.  A rejection only raises the alert of the
      first guard that fails; an acceptance puts the normalised word at the
      front of the list and adds its score to both scores.
    */
    method AddNewWord(newWord: string)
      requires Valid()
      modifies this`usedWords, this`roundScore, this`totalScore
      modifies this`errorTitle, this`errorMessage, this`showingError
      ensures Valid() && totalScore >= old(totalScore)
      ensures Judge(Normalize(newWord), rootWord, old(usedWords), isReal).Accepted? ==>
                && usedWords == [Normalize(newWord)] + old(usedWords)
                && roundScore == old(roundScore) + Judge(Normalize(newWord), rootWord, old(usedWords), isReal).score
                && totalScore == old(totalScore) + Judge(Normalize(newWord), rootWord, old(usedWords), isReal).score
                && unchanged(this`errorTitle, this`errorMessage, this`showingError)
      ensures Judge(Normalize(newWord), rootWord, old(usedWords), isReal).Rejected? ==>
                && var k := Judge(Normalize(newWord), rootWord, old(usedWords), isReal).reason;
                && errorTitle == Title(k) && errorMessage == Message(k, rootWord) && showingError
                && unchanged(this`usedWords, this`roundScore, this`totalScore)
    {
      var answer := Normalize(newWord);
      Submit(answer);
    }

    /** The guards of `AddNewWord`, run in order on the normalised answer. */
    method Submit(answer: string)
      requires Valid()
      modifies this`usedWords, this`roundScore, this`totalScore
      modifies this`errorTitle, this`errorMessage, this`showingError
      ensures Valid() && totalScore >= old(totalScore)
      ensures Judge(answer, rootWord, old(usedWords), isReal).Accepted? ==>
                && usedWords == [answer] + old(usedWords)
                && roundScore == old(roundScore) + Judge(answer, rootWord, old(usedWords), isReal).score
                && totalScore == old(totalScore) + Judge(answer, rootWord, old(usedWords), isReal).score
                && unchanged(this`errorTitle, this`errorMessage, this`showingError)
      ensures Judge(answer, rootWord, old(usedWords), isReal).Rejected? ==>
                && var k := Judge(answer, rootWord, old(usedWords), isReal).reason;
                && errorTitle == Title(k) && errorMessage == Message(k, rootWord) && showingError
                && unchanged(this`usedWords, this`roundScore, this`totalScore)
    {
      if |answer| <= 2 {
        assert Judge(answer, rootWord, usedWords, isReal) == Rejected(TooShort);
        WordError(Title(TooShort), Message(TooShort, rootWord));
        return;
      }
      if answer == rootWord {
        assert Judge(answer, rootWord, usedWords, isReal) == Rejected(SameAsRoot);
        WordError(Title(SameAsRoot), Message(SameAsRoot, rootWord));
        return;
      }
      if !isReal(answer) {
        assert Judge(answer, rootWord, usedWords, isReal) == Rejected(NotAWord);
        WordError(Title(NotAWord), Message(NotAWord, rootWord));
        return;
      }
      if !IsOriginal(answer) {
        assert Judge(answer, rootWord, usedWords, isReal) == Rejected(AlreadyUsed);
        WordError(Title(AlreadyUsed), Message(AlreadyUsed, rootWord));
        return;
      }
      var possible := IsPossible(answer);
      if !possible {
        assert Judge(answer, rootWord, usedWords, isReal) == Rejected(LettersUnavailable);
        WordError(Title(LettersUnavailable), Message(LettersUnavailable, rootWord));
        return;
      }

      assert Judge(answer, rootWord, usedWords, isReal) == Accepted(|answer| - 2);
      AcceptKeepsRoundInvariant(answer, rootWord, usedWords, roundScore, isReal);
      usedWords := [answer] + usedWords;
      var wordScore := |answer| - 2;
      roundScore := roundScore + wordScore;
      totalScore := totalScore + wordScore;
      assert Valid();
    }

    /** Start a round on `root`: no words yet and a round score of zero; the total is kept. */
    method StartGame(root: string)
      requires Valid()
      modifies this`usedWords, this`roundScore, this`rootWord
      ensures Valid()
      ensures usedWords == [] && roundScore == 0 && rootWord == root
      ensures totalScore == old(totalScore)
    {
      RoundScoreBound(usedWords, rootWord, roundScore, isReal);
      usedWords := [];
      roundScore := 0;
      rootWord := root;
      NewRoundInvariant(root, isReal);
    }

    /** Whether `word` is not among the words accepted this round. */
    function IsOriginal(word: string): (r: bool)
      reads this`usedWords
      ensures !r <==> exists i :: 0 <= i < |usedWords| && usedWords[i] == word
    {
      word !in usedWords
    }

    /**
      Whether `word` can be spelled from the root word: take each of its
      letters in turn out of a copy of the root word, failing as soon as one
      is missing.
    */
    method IsPossible(word: string) returns (possible: bool)
      ensures possible <==> Fits(word, rootWord)
    {
      var tempWord := rootWord;
      for i := 0 to |word|
        invariant multiset(tempWord) + multiset(word[..i]) == multiset(rootWord)
      {
        var letter := word[i];
        assert word[..i + 1] == word[..i] + [letter];
        match FirstIndex(tempWord, letter)
        case Some(pos) =>
          tempWord := RemoveAt(tempWord, pos);
        case None =>
          assert multiset(word[..i + 1])[letter] > multiset(rootWord)[letter];
          assert word == word[..i + 1] + word[i + 1..];
          return false;
      }
      assert word[..|word|] == word;
      return true;
    }

    /** Raise the alert with the given title and message; nothing else changes. */
    method WordError(title: string, message: string)
      modifies this`errorTitle, this`errorMessage, this`showingError
      ensures errorTitle == title && errorMessage == message && showingError
    {
      errorTitle := title;
      errorMessage := message;
      showingError := true;
    }
  }
}
