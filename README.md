# Flashcards: study cursor, exam tiles, shuffle and matching game

This project models the logic of a vocabulary flashcard page (`script.js`).
The page has two modes.

- **Study mode** shows one card of a fixed deck at a time. A card can be flipped over to its translation. Back and next buttons move through the deck and are disabled at its ends.
- **Exam mode** builds one word tile and one translation tile per card, shuffles them with Fisher–Yates, and lets the user click pairs. A pair is matched when the first tile's match text is the second tile's shown text and the two tiles differ in kind. Matched tiles fade out. A mismatch is shown and then reset by a timer. Once the last pair is matched, a second timer announces the end and shows study mode again.

The modules follow that structure:

- `Counting` is a generic count of the elements of a sequence that satisfy a predicate.
- `Deck` holds cards, exam items and tiles, the tile construction and the pair test.
- `Shuffle` holds the in-place Fisher–Yates shuffle on an `array`, proved against a function on sequences.
- `Matching` is the exam's state machine over a `Board` value. It covers the tag set of every tile, the selection, the pair counter and the pending timers. It includes the invariant, so every click and every timer keeps it.
- `Exam` is the `ExamMode` class. Each of its methods updates the fields exactly as `Matching` prescribes.
- `Study` is the `StudyMode` class together with the cursor functions.

Page elements are modelled as records:

- A tile is its kind, its text and its match text, plus a set of tags (`Selected`, `Correct`, `Wrong`, `FadeOut`) standing for its class list.
- The study page is the card shown, the position counter, the two disabled flags, the flip state and which view is visible.

The two deferred callbacks are explicit steps that the environment fires later.

- `ExamMode.MismatchReset` models the body at script.js:169-174. Each pending reset remembers the two tiles it captured.
- `ExamMode.Finish` (with `StudyMode.FinishExam`) models the body at script.js:161-164.

The random index of the shuffle is supplied by the caller: a sequence `js` with `js[i] <= i`.

## Model

| member | source | states |
|---|---|---|
| Deck.WordItems | script.js:98 | one word item per card, in deck order, carrying the card's word and translation |
| Deck.TranslationItems | script.js:99 | one translation item per card, in deck order, carrying the card's translation and word |
| Deck.BuildItems | script.js:98-101 | exactly 2N items; item k is card k's word item and item N+k its translation item |
| Deck.Render | script.js:118-128 | one tile per item in the same order; a word tile shows the word and matches the translation, a translation tile the reverse |
| Deck.KindCounts | script.js:98-101 | of the 2N items, exactly N are words and N are translations |
| Deck.TilesOfCard | script.js:123-128 | card k's word tile has text = word and match = translation, its translation tile text = translation and match = word, and each passes the pair test against the other in either order |
| Deck.EveryTileHasPartner | script.js:153 | in any permutation of the items, every tile has another tile on the board that it passes the pair test against |
| Deck.MatchSymmetricOnOneToOneDeck | script.js:153 | on a deck with no repeated word or translation, the pair test gives the same answer in either order of the picks |
| Deck.MatchOrderMatters | script.js:153 | for any two cards a, b with the same translation and different words, card a's word tile followed by card b's translation tile passes the pair test and the reverse order does not |
| Shuffle.Swap | script.js:110 | exchanges exactly the two positions and keeps all others |
| Shuffle.ShuffledFromPermutes | script.js:108-111 | every suffix of the loop's swaps yields a permutation of the input |
| Shuffle.ShuffledPermutes | script.js:107-112 | the shuffle keeps the length and the multiset of elements, whatever indices j ∈ [0, i] are drawn |
| Shuffle.ShuffledKeepsCount | script.js:107-112 | the shuffle keeps the number of elements of every sort (e.g. word tiles) |
| Shuffle.ShuffledFromIdentity | script.js:108-111 | drawing j = i at every step leaves the order unchanged |
| Shuffle.ShuffleInPlace | script.js:107-112 | the in-place descending loop of swaps computes the shuffle function on the array's contents and permutes them |
| Matching.Init | script.js:114-133 | the freshly rendered board: no tile has a tag, nothing is picked, no pair is counted, no timer is pending |
| Matching.Select | script.js:135-148 | a click on a tile that is faded or selected, or while two tiles are picked, changes nothing |
| Matching.CheckPairs | script.js:150-176 | the evaluation keeps every index on the board and never fires the finish callback itself |
| Matching.FireReset | script.js:169-174 | the captured first tile loses selected and correct, the captured second tile loses selected and wrong, all other tiles are unchanged, the selection is empty, the oldest pending reset is removed, and the counter and finish timers are unchanged |
| Matching.FireFinish | script.js:161-164 | one pending finish callback is consumed and counted as fired; nothing else changes |
| Matching.InitInv | script.js:114-133 | the invariant holds on the freshly rendered board |
| Matching.FirstPickInv | script.js:136-142 | a first pick keeps the invariant |
| Matching.RetagPairKeepsTiles | script.js:154-158 | retagging the round's two tiles, both faded or both untagged, and clearing the selection keeps "picked iff selected and not faded" and "other tiles in play are untagged" |
| Matching.MatchedBoardInv | script.js:153-158 | the board after a matching second pick (both tiles faded, counter up, selection cleared, finish scheduled iff last pair) satisfies the invariant |
| Matching.MatchPickInv | script.js:153-165 | a second pick that matches keeps the invariant (the faded count stays 2·correctPairs and correctPairs stays at most N) |
| Matching.MismatchPickInv | script.js:166-175 | a second pick that does not match keeps the invariant (one reset pending, capturing both picks) |
| Matching.SelectInv | script.js:135-148 | every click keeps the invariant: at most two distinct picks; a tile is picked iff it is selected and not faded; faded tiles number 2·correctPairs; correctPairs ≤ N; a finish is scheduled or fired exactly once the last pair is matched |
| Matching.FireResetInv | script.js:169-174 | the mismatch reset keeps the invariant |
| Matching.FireFinishInv | script.js:161-164 | the finish callback keeps the invariant |
| Matching.StepKeepsFaded | script.js:135-176 | no click or timer removes fade-out from a tile or lowers the pair counter |
| Matching.RunKeepsFaded | script.js:135-176 | once faded, a tile stays faded for any later sequence of events and every click on it is ignored; the pair counter never decreases |
| Matching.RunSplit | script.js:135-176 | running a sequence of events is running its first k events and then the rest |
| Matching.RunInv | script.js:135-176 | for any sequence of clicks and timer firings, the invariant holds, and the finish callback fires at most once and only after all N pairs are matched |
| Matching.RunAppend | script.js:135-176 | running two event sequences in turn is running their concatenation |
| Matching.FirstPick | script.js:136-142 | the first pick of a round tags the tile exactly selected and correct and makes it the selection |
| Matching.SecondPick | script.js:150-175 | both picked tiles are faded iff they pass the pair test; on a match the tiles get fade-out, the counter rises by one, the selection is cleared, and the finish is scheduled exactly when that was the last pair; on a mismatch only the second tile gets wrong, and the counter and selection stay until the reset |
| Matching.ResetUndoesRound | script.js:166-174 | on two untagged tiles that do not pair up, with nothing picked, the two clicks and the reset restore the board exactly |
| Matching.MismatchRoundTrip | script.js:166-174 | a mismatched round followed by its reset restores the board exactly |
| Matching.MatchRound | script.js:153-165 | two clicks on a matching pair fade both tiles and count the pair, scheduling the finish if it was the last |
| Matching.MismatchRound | script.js:166-174 | two clicks on a non-matching pair followed by the reset timer leave the board as before |
| Matching.CompletedIgnoresClicks | script.js:136 | once all pairs are matched, every click is ignored, so the finish cannot be scheduled twice |
| Matching.NoResetWhileFinishing | script.js:158-169 | while a finish callback is pending, no mismatch reset is pending and nothing is picked |
| Matching.FinishExactlyOnCompletion | script.js:160 | on a deck of N > 0 cards, a finish is pending or has fired iff correctPairs = N, and at most one ever exists (an empty deck never schedules one) |
| Exam.ExamMode.constructor | script.js:92-105 | the session's items are the shuffle of the built items under the supplied indices, the rendered tiles are untagged, and the session invariant holds |
| Exam.ExamMode.RenderExamCards | script.js:114-133 | the loop renders one tile per item in board order and leaves every tile untagged |
| Exam.ExamMode.SelectCard | script.js:135-148 | the click changes the session exactly as `Matching.Select` and keeps the invariant |
| Exam.ExamMode.CheckPairs | script.js:150-176 | the evaluation changes the session exactly as `Matching.CheckPairs` |
| Exam.ExamMode.MismatchReset | script.js:169-174 | the reset timer's body changes the session exactly as `Matching.FireReset` and keeps the invariant |
| Exam.ExamMode.Finish | script.js:161-164 | the finish timer's body changes the session exactly as `Matching.FireFinish` and keeps the invariant |
| Exam.SessionKindCounts | script.js:98-112 | every session, whatever the shuffle, has exactly N word tiles and N translation tiles |
| Exam.SessionTilesPaired | script.js:98-112 | every session, whatever the shuffle, gives every tile a partner on the board |
| Exam.SessionHasCardTiles | script.js:98-112 | however the tiles were shuffled, each card's word tile (matching its translation) and translation tile (matching its word) are both on the board |
| Exam.FourTileRounds | script.js:135-176 | on a four-tile board, a mismatched round plus its reset restore the start, and two matched rounds count both pairs and schedule one finish |
| Exam.FourTileSession | script.js:135-176 | the eight-event session (a mismatched round and its reset, the two pairs, the finish callback) on a four-tile board ends with both pairs matched, the finish fired once and nothing picked |
| Exam.ExampleSession | script.js:98-176 | the same session on the board built from two cards with distinct translations and shuffled without moving any tile |
| Study.NextIndex | script.js:48-53 | next stays inside the deck; it leaves the index unchanged exactly on the last card and otherwise adds one |
| Study.PreviousIndex | script.js:55-60 | back leaves the index unchanged exactly on the first card and otherwise subtracts one |
| Study.NextsSaturate | script.js:48-53 | k clicks on next reach min(i + k, N - 1) |
| Study.PreviousesSaturate | script.js:55-60 | k clicks on back reach max(i - k, 0) |
| Study.NextThenPrevious | script.js:48-60 | next then back returns to the card iff next was enabled, or the deck has one card |
| Study.PreviousThenNext | script.js:48-60 | back then next returns to the card iff back was enabled, or the deck has one card |
| Study.ViewOf | script.js:27-38 | the page shows the current card's word, translation and example, and the position counter index + 1 out of N |
| Study.StudyMode.constructor | script.js:10-16 | the deck opens on its first card, face up, with the study view shown and the buttons set |
| Study.StudyMode.RenderCard | script.js:27-42 | after a render the page shows the current card, back is disabled iff index = 0, next iff index = N-1, and the card is face up |
| Study.StudyMode.FlipCard | script.js:44-46 | flipping negates the flip state (two flips restore it) and changes nothing else |
| Study.StudyMode.NextCard | script.js:48-53 | the index moves as `NextIndex`, staying in [0, N-1]; a move leaves the card face up; the views and the exam are untouched |
| Study.StudyMode.PreviousCard | script.js:55-60 | the index moves as `PreviousIndex`; a move leaves the card face up; the views and the exam are untouched |
| Study.StudyMode.UpdateNavigationButtons | script.js:62-68 | back is disabled iff index = 0 and next iff index = N-1; nothing else changes |
| Study.StudyMode.ResetFlipCard | script.js:70-73 | the card is face up afterwards and nothing else changes |
| Study.StudyMode.StartExam | script.js:75-78 | the study view is hidden and a fresh exam over the whole deck starts, untagged and satisfying its invariant; the study cursor is untouched |
| Study.StudyMode.FinishExam | script.js:161-164 | the finish timer fires in the exam, and the callback passed at script.js:77 shows the study view again on the same card (the index is not reset) |
| Study.StudyMode.ShowStudyMode | script.js:80-83 | the study view is shown; nothing else changes |
| Study.StudyMode.HideStudyMode | script.js:85-88 | the exam view is shown; nothing else changes |

## Left out

- Page access (`document.querySelector`, `textContent`, `innerHTML`, `createElement`, `addEventListener`, `style.display`) is left out. Tiles are records with a tag set, and the study page is a record of what it shows. `setupEventListeners` (script.js:18-25) is also left out: the methods stand for the click handlers it registers.
- Timer delays (100 ms and 500 ms) and `alert` are left out. Each deferred body is a method that the environment calls. Pending mismatch resets are a queue in firing order, and pending finish callbacks are a count. The order between a pending reset and a pending finish is therefore not modelled. The two are never pending together (`Matching.NoResetWhileFinishing`), so that order never matters.
- `Math.random` and `Math.floor` are left out because they are floating point. The index drawn at step i is supplied by the caller as any value in [0, i].
- The `isChecking` field (script.js:173) is left out. It is written once and never read.
- The hard-coded 15-card deck (script.js:179-195) and `initializeStudyMode` are left out as data. `Exam.ExampleSession` plays a session over two cards like those of the deck.
- Study mode on an empty deck is left out. The source would fail reading `cards[0]`, so `StudyMode` requires at least one card. `ExamMode` accepts any deck.
- On completion the study view is shown again at the card that was current. It does not restart at the first card, because the callback passed at script.js:77 only calls `showStudyMode`. The model follows the code.
