/**
  What the game decides about one normalised answer, as pure functions of
  the round's state: the five guards in the order they are met, the
  rejection each one reports, the score of an accepted word, and the
  invariant that the accepted words of a round keep.
*/
module Validation {
  import opened Letters

  /** Why an answer was turned down; one kind per guard. */
  datatype Rejection = TooShort | SameAsRoot | NotAWord | AlreadyUsed | LettersUnavailable

  datatype Verdict = Accepted(score: int) | Rejected(reason: Rejection)

  /** The guards, in the order an answer meets them. */
  const Guards: seq<Rejection> := [TooShort, SameAsRoot, NotAWord, AlreadyUsed, LettersUnavailable]

  // The alert texts, one title and one message per rejection.  The message
  // for missing letters starts with the root word, followed by the suffix.
  const TooShortTitle: string := "Word is not long enough"
  const TooShortMessage: string := "Please make sure the word is at least 3 letters long."
  const SameAsRootTitle: string := "Word is the prompt"
  const SameAsRootMessage: string := "You need to build words from this word; try again."
  const NotAWordTitle: string := "Word not recognized"
  const NotAWordMessage: string := "Hmmm, you sure that's a valid English word?"
  const AlreadyUsedTitle: string := "Word used already"
  const AlreadyUsedMessage: string := "Try again. This word was already used."
  const LettersUnavailableTitle: string := "Word not possible"
  const LettersUnavailableSuffix: string := " doesn't contain those letters."

  /** Title of the alert shown for a rejection; every title starts with "Word ". */
  function Title(k: Rejection): (t: string)
    ensures |t| > 5 && t[..5] == "Word "
  {
    match k
    case TooShort => TooShortTitle
    case SameAsRoot => SameAsRootTitle
    case NotAWord => NotAWordTitle
    case AlreadyUsed => AlreadyUsedTitle
    case LettersUnavailable => LettersUnavailableTitle
  }

  /**
    Message of the alert shown for a rejection.  Only the message for missing
    letters depends on the root word, and it starts with the root word.
  */
  function Message(k: Rejection, root: string): (m: string)
    ensures k == LettersUnavailable ==> |m| >= |root| && m[..|root|] == root && m[|root|..] == LettersUnavailableSuffix
  {
    match k
    case TooShort => TooShortMessage
    case SameAsRoot => SameAsRootMessage
    case NotAWord => NotAWordMessage
    case AlreadyUsed => AlreadyUsedMessage
    case LettersUnavailable => root + LettersUnavailableSuffix
  }

  /** Whether `answer` gets past the guard that would reject it with `g`, judged on its own. */
  predicate Passes(g: Rejection, answer: string, root: string, used: seq<string>, isReal: string -> bool) {
    match g
    case TooShort => |answer| >= 3
    case SameAsRoot => answer != root
    case NotAWord => isReal(answer)
    case AlreadyUsed => forall i :: 0 <= i < |used| ==> used[i] != answer
    case LettersUnavailable => NoLetterOverused(answer, root)
  }

  /**
    The verdict on a normalised answer: the first guard that fails decides the
    rejection, and an answer that passes all five scores two less than its length.
  */
  function Judge(answer: string, root: string, used: seq<string>, isReal: string -> bool): (v: Verdict)
    ensures v.Accepted? ==> v.score >= 1 && |answer| == v.score + 2
  {
    if |answer| <= 2 then Rejected(TooShort)
    else if answer == root then Rejected(SameAsRoot)
    else if !isReal(answer) then Rejected(NotAWord)
    else if answer in used then Rejected(AlreadyUsed)
    else if !Fits(answer, root) then Rejected(LettersUnavailable)
    else Accepted(|answer| - 2)
  }

  /** An answer is rejected with the `n`-th guard's kind exactly when that guard fails and every earlier one passes. */
  lemma JudgeRejectsAtFirstFailingGuard(answer: string, root: string, used: seq<string>, isReal: string -> bool, n: nat)
    requires n < |Guards|
    ensures Judge(answer, root, used, isReal) == Rejected(Guards[n])
        <==> !Passes(Guards[n], answer, root, used, isReal)
             && forall m :: 0 <= m < n ==> Passes(Guards[m], answer, root, used, isReal)
  {
    FitsIffCounts(answer, root);
    var v := Judge(answer, root, used, isReal);
    if forall m :: 0 <= m < n ==> Passes(Guards[m], answer, root, used, isReal) {
      if n > 0 { assert Passes(Guards[0], answer, root, used, isReal); }
      if n > 1 { assert Passes(Guards[1], answer, root, used, isReal); }
      if n > 2 { assert Passes(Guards[2], answer, root, used, isReal); }
      if n > 3 { assert Passes(Guards[3], answer, root, used, isReal); }
    }
    forall m | 0 <= m < n && v == Rejected(Guards[n]) ensures Passes(Guards[m], answer, root, used, isReal) {
      assert m == 0 || m == 1 || m == 2 || m == 3;
    }
    if n == 0 { assert Guards[n] == TooShort; }
    else if n == 1 { assert Guards[n] == SameAsRoot; }
    else if n == 2 { assert Guards[n] == NotAWord; }
    else if n == 3 {
      assert Guards[n] == AlreadyUsed;
      assert Passes(Guards[n], answer, root, used, isReal) <==> answer !in used;
    } else {
      assert Guards[n] == LettersUnavailable;
    }
  }

  /** An answer is accepted exactly when it passes all five guards. */
  lemma JudgeAcceptsIffAllPass(answer: string, root: string, used: seq<string>, isReal: string -> bool)
    ensures Judge(answer, root, used, isReal).Accepted?
        <==> forall m :: 0 <= m < |Guards| ==> Passes(Guards[m], answer, root, used, isReal)
  {
    FitsIffCounts(answer, root);
    if forall m :: 0 <= m < |Guards| ==> Passes(Guards[m], answer, root, used, isReal) {
      assert Passes(Guards[0], answer, root, used, isReal);
      assert Passes(Guards[1], answer, root, used, isReal);
      assert Passes(Guards[2], answer, root, used, isReal);
      assert Passes(Guards[3], answer, root, used, isReal);
      assert Passes(Guards[4], answer, root, used, isReal);
    }
    forall m | 0 <= m < |Guards| && Judge(answer, root, used, isReal).Accepted?
      ensures Passes(Guards[m], answer, root, used, isReal)
    {
      assert m == 0 || m == 1 || m == 2 || m == 3 || m == 4;
    }
  }

  /** Two rejections show the same message exactly when they are the same kind and, for missing letters, the root words agree. */
  lemma MessageDependsOnRootOnlyForLetters(k: Rejection, root: string, root': string)
    ensures Message(k, root) == Message(k, root') <==> k != LettersUnavailable || root == root'
  {
    if k == LettersUnavailable && Message(k, root) == Message(k, root') {
      var m := Message(k, root);
      assert |root| == |root'| by {
        assert |m| == |root| + |LettersUnavailableSuffix| == |root'| + |LettersUnavailableSuffix|;
      }
      assert root == m[..|root|] == root';
    }
  }

  /** Each rejection has its own title, so the title shown identifies the guard that failed. */
  lemma TitleIdentifiesGuard(k: Rejection, j: Rejection)
    ensures Title(k) == Title(j) <==> k == j
  {
    if k != j {
      assert Title(k)[5] != Title(j)[5] || |Title(k)| != |Title(j)|;
    }
  }

  /** Submitting the root word itself is turned down as the prompt (unless it is too short to get that far). */
  lemma RootIsSameAsRoot(root: string, used: seq<string>, isReal: string -> bool)
    requires |root| >= 3
    ensures Judge(root, root, used, isReal) == Rejected(SameAsRoot)
  {
  }

  /** Once an answer has been accepted, submitting it again in the same round is turned down as already used. */
  lemma ResubmissionIsAlreadyUsed(answer: string, root: string, used: seq<string>, isReal: string -> bool)
    requires Judge(answer, root, used, isReal).Accepted?
    ensures Judge(answer, root, [answer] + used, isReal) == Rejected(AlreadyUsed)
  {
  }

  /** Points earned by the words of a round: each word scores its length minus two. */
  function Points(used: seq<string>): (p: int)
    ensures (forall i :: 0 <= i < |used| ==> |used[i]| >= 3) ==> p >= |used|
  {
    if used == [] then 0 else |used[0]| - 2 + Points(used[1..])
  }

  /**
    What holds of the words accepted in a round: each is a real word of at
    least three letters, other than the root and spelled from its
    letters; no word appears twice; and the round score is their points.
  */
  ghost predicate RoundInvariant(used: seq<string>, root: string, roundScore: int, isReal: string -> bool) {
    && roundScore == Points(used)
    && (forall i :: 0 <= i < |used| ==> Admissible(used[i], root, isReal))
    && (forall i, j :: 0 <= i < j < |used| ==> used[i] != used[j])
  }

  /** A word the round may hold: real, at least three letters, not the root, spelled from the root's letters. */
  ghost predicate Admissible(w: string, root: string, isReal: string -> bool) {
    |w| >= 3 && w != root && isReal(w) && Fits(w, root)
  }

  /** A new round, with no words yet and a score of zero, satisfies the invariant whatever its root word. */
  lemma NewRoundInvariant(root: string, isReal: string -> bool)
    ensures RoundInvariant([], root, 0, isReal)
  {
  }

  /** Accepting an answer at the front of the list, and adding its score, keeps the invariant. */
  lemma AcceptKeepsRoundInvariant(answer: string, root: string, used: seq<string>, roundScore: int, isReal: string -> bool)
    requires RoundInvariant(used, root, roundScore, isReal)
    requires Judge(answer, root, used, isReal).Accepted?
    ensures RoundInvariant([answer] + used, root, roundScore + (|answer| - 2), isReal)
  {
    var used' := [answer] + used;
    assert used'[1..] == used;
    assert Points(used') == roundScore + (|answer| - 2);
    assert Admissible(answer, root, isReal);
    forall i | 0 <= i < |used'| ensures Admissible(used'[i], root, isReal) {
      if i > 0 {
        assert used'[i] == used[i - 1];
      }
    }
    forall i, j | 0 <= i < j < |used'| ensures used'[i] != used'[j] {
      assert used'[j] == used[j - 1];
      if i > 0 {
        assert used'[i] == used[i - 1];
      }
    }
  }

  /** In a round that keeps the invariant the score is at least the number of words, so never negative. */
  lemma RoundScoreBound(used: seq<string>, root: string, roundScore: int, isReal: string -> bool)
    requires RoundInvariant(used, root, roundScore, isReal)
    ensures roundScore >= |used| >= 0
  {
  }
}
