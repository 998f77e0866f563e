# WordScramble: word validation and scoring

WordScramble is a SwiftUI word game. The player is shown a root word
(for example "silkworm") and types words that can be spelled from its
letters. This project models the game's engine in Dafny: the part of
`ContentView` that judges a typed word, keeps the list of accepted words,
and keeps the round and total scores.

Before it is judged, the typed text is normalised: it is lower-cased, and
white space and line breaks are trimmed from both ends. Five guards then
run in a fixed order:

1. the answer has more than two letters;
2. it is not the root word;
3. the spell checker knows it;
4. it was not already accepted this round;
5. it can be spelled from the root word, with each letter of the root used at most once.

The first guard that fails raises an alert with that guard's title and
message, and nothing else changes. An answer that passes all five goes to
the front of the list, and its length minus two is added to both scores.
Starting a round empties the list and resets the round score; the total
score is kept.

Modules:

- `Letters`: letter counts and the "can be spelled from" relation, as a
  multiset inclusion (`Fits`) and as per-letter counts (`NoLetterOverused`),
  proved equivalent. It also holds the two string primitives the
  feasibility loop uses: first index of a character, and removal at a
  position.
- `Text`: normalisation. ASCII lower-casing, then trimming of the
  characters in Foundation's `whitespacesAndNewlines` set.
- `Validation`: the pure specification. `Judge` gives the verdict on a
  normalised answer. It also holds the alert texts, the score of a round
  (`Points`) and the invariant every round keeps (`RoundInvariant`).
- `WordScramble`: the class `ContentView`, which holds the view's state
  fields. Its methods `AddNewWord`, `StartGame`, `WordError` and the loop
  `IsPossible` are proved against `Validation` and `Letters`.

The spell checker is a function value `isReal: string -> bool`, fixed when
the view is constructed. The model assumes only that it gives the same answer
for the same word for the whole life of the view (see "## Left out").

## Model

| member | source | states |
|---|---|---|
| WordScramble.ContentView.constructor | WordScramble/ContentView.swift:12-21 | The initial state: no words, empty root word and alert, both scores zero, alert not showing; the round invariant holds. |
| WordScramble.ContentView.Valid | WordScramble/ContentView.swift:98-112 | The class invariant: the round invariant holds and the round score never exceeds the total. Hence 0 <= number of accepted words <= round score <= total score. |
| WordScramble.ContentView.AddNewWord | WordScramble/ContentView.swift:74-113 | The answer is the normalised input. If `Judge` accepts it, it is put at the front of `usedWords`, both scores rise by its score (length minus two, at least 1), and the alert fields are untouched. If `Judge` rejects it, the alert shows exactly the failing guard's title and message, and `usedWords` and both scores are unchanged. The round invariant is kept, and the total never decreases. |
| WordScramble.ContentView.Submit | WordScramble/ContentView.swift:80-112 | The guard chain of `AddNewWord` on the normalised answer, with early returns. Its new state is stated through `Judge` exactly as for `AddNewWord`. |
| WordScramble.ContentView.StartGame | WordScramble/ContentView.swift:116-119 | `usedWords` becomes empty, the round score 0 and the root word the given one. The total score is unchanged and the round invariant holds for the new root. |
| WordScramble.ContentView.IsOriginal | WordScramble/ContentView.swift:132-134 | False exactly when some accepted word equals the given word. |
| WordScramble.ContentView.IsPossible | WordScramble/ContentView.swift:136-147 | The greedy removal loop returns true exactly when the word's letters form a sub-multiset of the root word's. The loop invariant is that the remaining copy plus the consumed prefix equals the root word, as multisets. |
| WordScramble.ContentView.WordError | WordScramble/ContentView.swift:157-162 | Sets the alert title and message to the given ones and shows the alert. |
| Validation.Judge | WordScramble/ContentView.swift:80-112 | An accepted answer scores at least 1, and its length is its score plus two. |
| Validation.JudgeRejectsAtFirstFailingGuard | WordScramble/ContentView.swift:80-101 | For each guard n, the verdict is a rejection of kind n if and only if guard n fails and every earlier guard passes. Later guards have no influence. |
| Validation.JudgeAcceptsIffAllPass | WordScramble/ContentView.swift:80-112 | An answer is accepted if and only if it passes all five guards. |
| Validation.Title | WordScramble/ContentView.swift:80-101 | The alert title the source reports for each guard: "Word is not long enough", "Word is the prompt", "Word not recognized", "Word used already", "Word not possible". Every title starts with "Word ". |
| Validation.Message | WordScramble/ContentView.swift:80-101 | The alert message the source reports for each guard. For missing letters it is the root word followed by " doesn't contain those letters." (line 99). |
| Validation.MessageDependsOnRootOnlyForLetters | WordScramble/ContentView.swift:80-101 | Two messages of the same kind for two root words are equal exactly when the kind is not missing letters, or the root words are equal. Only line 99 interpolates the root. |
| Validation.TitleIdentifiesGuard | WordScramble/ContentView.swift:80-101 | Two rejections have the same alert title exactly when they are the same kind. |
| Validation.RootIsSameAsRoot | WordScramble/ContentView.swift:84-86 | Typing the root word itself (three letters or more) is rejected as the prompt, whatever the spell checker says. |
| Validation.ResubmissionIsAlreadyUsed | WordScramble/ContentView.swift:93-96 | An accepted answer, typed again once it is at the front of the list, is rejected as already used. |
| Validation.Points | WordScramble/ContentView.swift:109-112 | When every word has at least three letters, the points of a list are at least its length. |
| Validation.NewRoundInvariant | WordScramble/ContentView.swift:116-119 | An empty list with score 0 satisfies the round invariant, whatever the root word. |
| Validation.AcceptKeepsRoundInvariant | WordScramble/ContentView.swift:98-112 | Putting an accepted answer at the front and adding its score keeps the invariant. The invariant says the score equals the points, every word is real, longer than two letters, not the root and spelled from its letters, and no word appears twice. |
| Validation.RoundScoreBound | WordScramble/ContentView.swift:109-112 | Under the invariant the round score is at least the number of accepted words, so it is never negative. |
| Letters.Count | WordScramble/ContentView.swift:139-144 | The number of occurrences of a letter is at most the length, and is zero exactly when the letter is absent. |
| Letters.CountIsMultiplicity | WordScramble/ContentView.swift:136-147 | `Count` agrees with the letter's multiplicity in the string's multiset. |
| Letters.FitsIffCounts | WordScramble/ContentView.swift:136-147 | A word fits the root (multiset inclusion) exactly when no letter occurs more often in it than in the root. |
| Letters.FirstIndex | WordScramble/ContentView.swift:140 | None exactly when the letter is absent; otherwise a position holding the letter with no earlier occurrence. |
| Letters.RemoveAt | WordScramble/ContentView.swift:141 | Removing the character at a position shortens the string by one and takes exactly that character out of its multiset. |
| Letters.SilkFitsSilkworm | WordScramble/ContentView.swift:136-147 | "silk" can be spelled from "silkworm". |
| Letters.WormsFitsSilkworm | WordScramble/ContentView.swift:136-147 | "worms" can be spelled from "silkworm". |
| Letters.SilksDoesNotFitSilkworm | WordScramble/ContentView.swift:136-147 | "silks" cannot be spelled from "silkworm": it needs a second 's'. |
| Letters.KillsDoesNotFitSilkworm | WordScramble/ContentView.swift:136-147 | "kills" cannot be spelled from "silkworm": it needs a second 'l'. |
| Text.IsWhitespace | WordScramble/ContentView.swift:76 | Membership in Foundation's `whitespacesAndNewlines`: Unicode general category Z, tab, U+000A to U+000D and U+0085. Space, tab, line feed and carriage return are in the set; no ASCII letter or digit is. |
| Text.LowerChar | WordScramble/ContentView.swift:76 | A capital A-Z becomes its own lower-case letter (32 code points above it); every other character is kept unchanged. The result is never a capital, and white space stays white space. |
| Text.Lowercased | WordScramble/ContentView.swift:76 | The length is kept. Each capital is replaced by its own lower-case letter, and every other character is unchanged. The result has no capitals and white space stays in place. |
| Text.LowerCharIdentifiesCase | WordScramble/ContentView.swift:76 | Two characters lower-case to the same character exactly when they are equal or are the capital and lower-case forms of one ASCII letter. |
| Text.LowercasedIdentifiesCase | WordScramble/ContentView.swift:76 | Two strings lower-case to the same string exactly when they have the same length and agree at each position up to the case of an ASCII letter. With `NormalizeIgnoresCaseAndPadding`, this means " Silk " and "silk" get the same answer. |
| Text.LeadingWhitespace | WordScramble/ContentView.swift:76 | The result is the length of the maximal white-space prefix: all of it is white space and the next character is not. |
| Text.TrailingWhitespace | WordScramble/ContentView.swift:76 | The result is the length of the maximal white-space suffix: all of it is white space and the character before it is not. |
| Text.Trim | WordScramble/ContentView.swift:76 | The result is no longer than the input, and is empty or neither starts nor ends with white space. |
| Text.Normalize | WordScramble/ContentView.swift:76 | The answer is no longer than the input, has no capitals, and is empty or neither starts nor ends with white space. |
| Text.TrimOf | WordScramble/ContentView.swift:76 | Trimming white space from around a core that neither starts nor ends with white space gives back exactly that core. |
| Text.TrimSplit | WordScramble/ContentView.swift:76 | Every string is its trimmed core with white space on either side. |
| Text.TrimPadded | WordScramble/ContentView.swift:76 | Adding white space around a string does not change its trimmed core. |
| Text.LowercasedPadded | WordScramble/ContentView.swift:76 | Lower-casing passes white-space padding through unchanged. |
| Text.NormalFormIsFixed | WordScramble/ContentView.swift:76 | A string with no capitals and no white space at either end is its own normal form. |
| Text.NormalizeIdempotent | WordScramble/ContentView.swift:76 | Normalising a normalised answer changes nothing. |
| Text.NormalizeIgnoresCaseAndPadding | WordScramble/ContentView.swift:76 | Changing the case of letters, or adding white space around the input, does not change the answer. |

## Left out

- The SwiftUI `body` (navigation view, list, text field, alert, toolbar) and `ContentView_Previews` are view rendering only.
- WordScramble.ContentView.StartGame: reading `start.txt` from the bundle, the random choice of the root word, the "silkworm" fallback and the `fatalError` are file I/O and randomness. The chosen root word is a parameter instead.
- The spell check (`isReal`, built on `UITextChecker`) is a platform call. It is a function value fixed at construction. This assumes the checker gives the same answer for the same word for the whole life of the view. The `isReal` part of the round invariant (every accepted word is real) holds only under that assumption; a checker whose dictionary changes mid-round is not modelled.
- WordScramble.ContentView.AddNewWord: takes the text field's contents as a parameter. It does not model the `newWord` binding or clearing it (also done in `startGame`), because that is text-field state.
- `withAnimation` is a UI effect; the insertion it wraps is modelled.
- Dismissing the alert, which resets `showingError`, is done by SwiftUI and is not modelled.
- Text.Lowercased: maps only ASCII A-Z. Swift's `lowercased()` applies full Unicode case mapping, which may also change a string's length.
- Strings are sequences of Unicode scalar values. Swift counts and compares `Character`s, which are grapheme clusters, and compares strings up to canonical equivalence. Lengths and equality therefore agree with the source only for text without combining sequences.
- Swift `Int` traps on overflow. The scores are modelled as unbounded integers, so a total above 2^63 - 1 is not modelled.
