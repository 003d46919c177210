# Silly Cat Memory Game — a verified model of the game engine

The page script `script.js` runs a memory game. A board of face-down cat
pictures is dealt for one of three difficulties. The player turns cards two at
a time. A matching pair stays face-up. A non-matching pair is turned back down
800 ms later. The game is won when every pair is matched, and lost when the
moves or the seconds run out. A limited number of hints each show a matching
pair for one second. A streak counts the matches since the last loss, and a highscore keeps
the best streak that won a game.

This project models that engine in Dafny, in four layers:

- `board.dfy` (module `Board`): the image catalog, the difficulty table and
  `createBoard`. The pool loop is a `while` loop. Each shuffle is a
  permutation chosen by a sequence of random choices, and every permutation
  is reachable (`Board.ShuffleReaches`). The dealt board is the selection
  doubled and shuffled again.
- `rules.dfy` (module `Rules`): the whole game as a value, `State`. Every
  event is a function from the state before to the state after:
  - `Flip`: a click on a card.
  - `Tick`: the once-per-second interval.
  - `ResolveMismatch`: the 800 ms callback, corrected so that a callback of an
    earlier board does nothing (see Findings). `MismatchCallbackAsWritten` is
    the callback as the code has it.
  - `ShowHint`: a hint request.
  - `HintExpire`: the 1 s revert of a hint.
  - `Start`: a new game.
  - `EndGame`: the end of a game.

  Pending callbacks are queues of `Reveal(game, first, second)`. `game` is
  the number of the board whose card nodes the callback captured. A card's
  identity is its picture's index in the catalog. `Consistent` is the game's
  invariant:
  - At most two cards are under comparison. They are face-up and unmatched, and a full pair locks the board.
  - Only the newest mismatch callback can belong to the board on display. It does exactly when a pair is under comparison, and it holds that pair.
  - The live hint callbacks hold distinct face-up, unmatched cards that are not under comparison.
  - Every matched card is face-up. Every other face-up card is under comparison or held by a live hint callback.
  - A result screen stops the interval. A win leaves the board locked with nothing under comparison. A loss keeps the spent budget that caused it.
- `rule_facts.dfy` (module `RuleFacts`) proves that every event keeps
  `Consistent`, with the corrected mismatch callback. `behaviour.dfy`
  (module `Behaviour`) proves what a player observes. It covers the guard of a click, the outcome of a match, a
  mismatch, a tick, each callback and a hint, and move accounting. It shows
  that a result screen is final over any sequence of later events. It also
  covers the restart scenario described under Findings.
- `game.dfy` (module `Game`): the script as an object. The class
  `MemoryGame` holds the script's module-level variables as fields. Its
  mismatch callback is the corrected one. The card elements are an array of `Card` values: identity, `flipped` class and
  `matched` class. Every handler is a method that updates them in place.
  Each method is proved to move `State()` exactly as the matching rule does,
  and to keep `Valid()`, that is, `Consistent(State())`.

One might expect every picture to lie on the board exactly twice. The pool
loop cycles the four pictures until there are enough pairs,
so the medium and hard boards hold every picture 4 and 6 times. Only boards
of at most four pairs hold each picture exactly twice, or not at all
(`Board.ProfileBoards`, `Board.SmallDealIsPairs`).

The model keeps several behaviours of the code that a reader might not
expect:

- A mismatch does not reset the streak.
- A hint can be requested after the game has ended, because `showHint` has
  no lock check.
- A match on the last move that completes the board wins.
- After a loss, a pending mismatch callback still unlocks the board. Clicks
  stay ignored anyway, because the exhausted budget fails the guard.

## Model

| member | source | states |
|---|---|---|
| Board.Settings | script.js:69-73 | the difficulty table: every grid has an even number of cells, so a board is a whole number of pairs, and every budget is positive |
| Board.SameImageIffSameIdentity | script.js:109 | comparing two cards' markup compares their identities: the catalog sources are pairwise distinct |
| Board.Cycle | script.js:84 | the catalog concatenated `k` times holds every catalog picture exactly `k` times and nothing else |
| Board.GrowPool | script.js:84-85 | the pool loop, proved with its invariants, ends with exactly `Pool(neededPairs)` |
| Board.Pool | script.js:83-85 | when the growing loop stops, the pool holds at least `neededPairs` pictures and fewer than `neededPairs + 4`, all from the catalog |
| Board.Shuffle | script.js:75-77 | a shuffle keeps the length and is a permutation (same multiset) |
| Board.ShuffleReaches | script.js:75-77 | every permutation of the input is the outcome of some run of the shuffle, so the lemmas about `Deal` cover every board the page can deal |
| Board.Selected | script.js:87 | the selection has exactly `neededPairs` entries, all catalog pictures, and takes no picture more often than the pool holds it |
| Board.DoubledIsEven | script.js:88 | a permutation of `selected ++ selected` holds only selected pictures, each an even number of times |
| Board.Deal | script.js:87-88 | the board has `2 * neededPairs` cards and is a permutation of `selected ++ selected`; every picture is a catalog picture and occurs an even number of times |
| Board.CreateBoard | script.js:79-88 | the board built by the pool loop, the selection and the two shuffles has `rows * cols` cards and is the deal of `rows * cols / 2` pairs |
| Board.FullCatalogDeal | script.js:83-88 | when the pairs are a whole number of catalogs, each catalog picture lies on the board exactly `neededPairs / 2` times |
| Board.SmallDealIsPairs | script.js:83-88 | with at most four pairs, each picture lies on the board exactly twice or not at all |
| Board.ProfileBoards | script.js:69-88 | the easy, medium and hard profiles deal 8, 16 and 24 cards, with every picture 2, 4 and 6 times |
| Rules.Initial | script.js:20-22 | the page before the first start; its contract is `RuleFacts.InitialConsistent` |
| Rules.Start | script.js:185-207 | a new game; its contract is `Behaviour.StartOutcome` (every field of the result, including that the pending callbacks are kept and the board number advances) and `RuleFacts.StartConsistent` |
| Rules.Flip | script.js:99-138 | a click on a card; its contract is `Behaviour.ClickIgnoredIffGuard` (ignored clicks), `Behaviour.FirstClickOutcome` (the first card of a pair), `Behaviour.MatchOutcome` and `Behaviour.MismatchOutcome` (the second card, each with the full frame), `Behaviour.MoveAccounting` and `RuleFacts.FlipConsistent` |
| Rules.TurnUp | script.js:102-103 | an accepted click turns the card up and adds it to the comparison; stated for the first card by `Behaviour.FirstClickOutcome` and for the second by `Behaviour.MatchOutcome` and `Behaviour.MismatchOutcome` |
| Rules.ComparePair | script.js:108-132 | the comparison of a full pair; its contract is `Behaviour.ComparePairOutcome` (both branches in full and the frame: time, moves, hints left, board number and hint queue unchanged) |
| Rules.MatchPair | script.js:111-123 | a matching pair, with the win check; stated by the match branch of `Behaviour.ComparePairOutcome` and, as part of a click, by `Behaviour.MatchOutcome` with its full frame |
| Rules.CheckMoves | script.js:134-136 | the moves check; its contract is `Behaviour.CheckMovesOutcome` (the whole result in both cases) and `RuleFacts.CheckMovesConsistent` |
| Rules.Tick | script.js:200-206 | the interval body; its contract is `Behaviour.TickOutcome` (with the full frame) and `RuleFacts.TickConsistent` |
| Rules.ResolveMismatch | script.js:126-131 | the 800 ms callback, corrected to ignore a callback of an earlier board; its contract is `Behaviour.MismatchCallbackOutcome` and `RuleFacts.ResolveMismatchConsistent` |
| Rules.MismatchCallbackAsWritten | script.js:126-131 | the 800 ms callback as written, without a board check; `Behaviour.AsWrittenStrandsCard` shows what it does after a restart |
| Rules.ShowHint | script.js:140-161 | a hint request; its contract is `Behaviour.ShowHintOutcome` and `RuleFacts.ShowHintConsistent` |
| Rules.HintExpire | script.js:155-158 | the 1 s revert of a hint; its contract is `Behaviour.HintCallbackOutcome` and `RuleFacts.HintExpireConsistent` |
| Rules.FaceDown | script.js:89-96 | a new board has one card per dealt identity, in order, neither flipped nor matched |
| Rules.EndGame | script.js:167-183 | ending the game leaves the cards, the pair under comparison, the board number and the pending callbacks as they are |
| Rules.FreeCards | script.js:146-147 | the hint query returns, in increasing board order, exactly the positions of the cards that are neither matched nor flipped |
| Rules.FindPartner | script.js:149-150 | the search returns the first entry from `from` on with the same picture as `first` and another position, or none when no entry has one |
| RuleFacts.InitialConsistent | script.js:20-22 | the page before the first start satisfies the invariant |
| RuleFacts.StartConsistent | script.js:185-207 | a new game satisfies the invariant whatever the previous game left pending |
| RuleFacts.EndGameConsistent | script.js:167-183 | ending the game keeps the invariant when the reason's budget is spent, or on a win with nothing under comparison |
| RuleFacts.CheckMovesConsistent | script.js:134-136 | the moves check keeps the invariant |
| RuleFacts.AcceptedClick | script.js:100 | a click the guard accepts finds no result screen, at most one card under comparison, no live mismatch callback, and the clicked card unmatched, not under comparison and not shown by a hint |
| RuleFacts.MatchConsistent | script.js:111-123 | completing a matching pair keeps the invariant |
| RuleFacts.MismatchConsistent | script.js:124-132 | completing a non-matching pair keeps the invariant |
| RuleFacts.FlipConsistent | script.js:99-138 | every click keeps the invariant |
| RuleFacts.TickConsistent | script.js:200-206 | every tick keeps the invariant |
| RuleFacts.ResolveMismatchConsistent | script.js:126-131 | the mismatch callback, ignoring callbacks of earlier boards, keeps the invariant |
| RuleFacts.ShowHintConsistent | script.js:140-161 | a hint request keeps the invariant |
| RuleFacts.HintExpireConsistent | script.js:155-158 | the hint revert keeps the invariant, also when it fires on a later board |
| Behaviour.ClickIgnoredIffGuard | script.js:100-102 | a click changes the game if and only if the lock, the `flipped` class, the time and the moves all let it through, and an accepted click leaves the card face-up |
| Behaviour.MatchedCardIgnored | script.js:100 | a click on a matched card changes nothing, because a matched card keeps the `flipped` class |
| Behaviour.MoveAccounting | script.js:103-106 | a move is spent exactly when an accepted click completes a pair, and never more than two cards are under comparison |
| Behaviour.FirstClickOutcome | script.js:102-103 | the first card of a pair turns face-up and becomes the one card under comparison; nothing else changes |
| Behaviour.ComparePairOutcome | script.js:108-132 | a match marks exactly the two cards, counts the pair, extends the streak by one, empties the comparison and leaves the mismatch queue alone; when it completes the board the game is won (win screen, board locked, interval stopped) and the highscore becomes the larger of itself and the streak, otherwise screen, lock, interval and highscore stay. A mismatch only locks the board and queues the callback for the pair; nothing else changes. The time, the moves, the hints left, the board number and the hint queue never change |
| Behaviour.CheckMovesOutcome | script.js:134-136 | out of moves with pairs left, the game is lost (interval stopped, board locked, streak reset, lose screen for moves); otherwise nothing changes |
| Behaviour.MatchOutcome | script.js:111-136 | a matching pair marks both cards and changes no other card. `matched` rises by one, `flipped` is emptied and one move is spent. The last pair wins, even on the last move, and the highscore becomes the maximum of itself and the streak, so it never drops. Otherwise, with no moves left, the game is lost and the streak reset. The board is locked exactly when the game ended. Nothing else changes: the time, the hints left, the board number and both callback queues stay |
| Behaviour.MismatchOutcome | script.js:124-136 | a non-matching pair stays face-up, the board locks, the callback for that pair is queued and one move is spent. The streak is kept unless the last move loses, the highscore is unchanged, and the interval keeps running unless the last move loses. Nothing else changes: the count of matched pairs, the time, the hints left, the board number and the hint queue stay |
| Behaviour.MismatchCallbackOutcome | script.js:126-131 | for the corrected callback: the one of the board on display turns down exactly the pair under comparison, empties `flipped` and unlocks the board. One from an earlier board changes none of these (the code as written does, see Findings). Nothing but the cards, `flipped`, the lock and the queue changes |
| Behaviour.HintCallbackOutcome | script.js:155-158 | the hint revert turns down its two cards, which are face-up, when they belong to the board on display. Nothing but the cards and the queue of hint callbacks changes |
| Behaviour.TickOutcome | script.js:200-206 | a tick takes one second off. It ends the game as lost on time, resetting the streak and locking the board, exactly when the time reaches zero with pairs left. Nothing else changes: the cards, the comparison, the moves, the hints left, the scores (but the streak on a loss), the board number and both callback queues stay |
| Behaviour.StartOutcome | script.js:185-207 | a new game lays the dealt board out face-down and sets moves, time and hints from the profile. It empties `flipped`, zeroes `matched`, unlocks the board, hides the screens and installs the interval. Streak and highscore carry over. The board number advances, and both callback queues are kept as they are (nothing cancels a pending callback), so every pending callback belongs to an earlier board |
| Behaviour.FreeHead | script.js:146-149 | the head of the hint query is the first free card in board order |
| Behaviour.PartnerSearch | script.js:149-150 | the partner search finds the first free card with the same picture as the first free card, and finds none exactly when there is none |
| Behaviour.ShowHintOutcome | script.js:140-161 | with no hints left, no first free card or no partner, a hint changes nothing. Otherwise it turns up the first free card and its first partner, queues their revert and uses exactly one hint. It never touches `flipped`, the moves, `matched` or the streak |
| Behaviour.Step | script.js:94 | every event that reaches the page keeps the invariant: a card click, a tick, either callback or a hint request |
| Behaviour.OverClick | script.js:100 | behind a result screen every click is ignored |
| Behaviour.GameOverIsFinal | script.js:167-183 | after the game ends, whatever events follow, the screen, the pictures, the matched cards, the moves, the time, the matched-pair count and the scores stay as they are, and every click is ignored. The hints left may still drop, because `showHint` has no lock check |
| Behaviour.EasyBoardDealt | script.js:83-88 | the layout `0 1 0 1 2 3 2 3` of the restart scenario is a board the easy profile can deal: it is `Deal(4, [], rand2)` for some choices `rand2` |
| Behaviour.RestartScenario | script.js:185-207 | a restart during a pending mismatch leaves that callback queued for the old board while a card of the new board is under comparison |
| Behaviour.AsWrittenStrandsCard | script.js:126-131 | the callback as written, firing after a restart, leaves a face-up unmatched card that is not under comparison, that no pending callback holds and that a click ignores, and breaks the invariant |
| Behaviour.CorrectedKeepsComparison | script.js:126-131 | the corrected callback leaves the new board's comparison in place and keeps the invariant |
| Game.LayOut | script.js:89-96 | the card elements of a new board are fresh and read as the face-down deal |
| Game.MemoryGame.constructor | script.js:20-22 | the page starts in the initial state, which is consistent |
| Game.MemoryGame.Start | script.js:185-207 | `startGame` deals the chosen profile's board and moves the game to `Rules.Start` of the old state, keeping the invariant |
| Game.MemoryGame.Reset | script.js:186-199 | the resets and the new card elements give exactly `Rules.Start` of the old state |
| Game.MemoryGame.EndGame | script.js:167-183 | `endGame` moves the game to `Rules.EndGame` of the old state without touching the cards |
| Game.MemoryGame.ComparePair | script.js:108-132 | comparing the pair moves the game to `Rules.ComparePair` of the old state |
| Game.MemoryGame.MatchPair | script.js:111-123 | a matching pair moves the game to `Rules.MatchPair` of the old state |
| Game.MemoryGame.FlipCard | script.js:99-138 | `flipCard` moves the game to `Rules.Flip` of the old state and keeps the invariant |
| Game.MemoryGame.Click | script.js:102-107 | an accepted click moves the game to `Rules.Flip` of the old state |
| Game.MemoryGame.SecondCard | script.js:105-136 | completing a pair spends a move, compares, and applies the moves check |
| Game.MemoryGame.Tick | script.js:200-206 | the interval body moves the game to `Rules.Tick` of the old state and keeps the invariant |
| Game.MemoryGame.ResolveMismatch | script.js:126-131 | the oldest mismatch callback, corrected to ignore a callback of an earlier board, moves the game to `Rules.ResolveMismatch` of the old state and keeps the invariant |
| Game.MemoryGame.FreePositions | script.js:146-147 | the loop over the cards returns exactly the hint query `Rules.FreeCards` of the cards |
| Game.MemoryGame.PartnerPosition | script.js:149-150 | the search loop returns the position that `Rules.FindPartner` finds, or the query's length when there is none |
| Game.MemoryGame.ShowHint | script.js:140-161 | `showHint` moves the game to `Rules.ShowHint` of the old state and keeps the invariant |
| Game.MemoryGame.Hint | script.js:141-160 | the body of `showHint` moves the game to `Rules.ShowHint` of the old state |
| Game.MemoryGame.HintExpire | script.js:155-158 | the oldest hint revert moves the game to `Rules.HintExpire` of the old state and keeps the invariant |

## Left out

- DOM lookups, event-listener wiring and the dark-mode toggle (script.js:1-11, 209-217) are user-interface glue. The events they deliver are the `Behaviour.Event` values and the class's methods.
- Confetti (script.js:24-67), and the `startConfetti`/`stopConfetti` calls, are canvas drawing.
- The randomness of `shuffleArray` (script.js:75-77) is a parameter. Each shuffle is driven by a sequence of choices, and every permutation is reachable (`Board.ShuffleReaches`). The bias of sorting with a random comparator is not modelled.
- Real time is not modelled. The 800 ms and 1 s callbacks are explicit steps, each kind firing oldest first. `Behaviour.Run` allows any interleaving of the two kinds and the ticks, which includes every order real timing produces.
- `alert` (script.js:142), the status and score texts (script.js:107, 116, 120, 163-165, 181, 197, 202) and the grid layout (script.js:81) are presentation only.
- The win and lose screens (script.js:173-178) are the `Screen` value, and the lose message is its `LossReason`.
- Game.MemoryGame.ResolveMismatch: runs the corrected 800 ms callback, which does nothing when it was scheduled on an earlier board. So do `Behaviour.Step`, `Behaviour.Run` and `Behaviour.GameOverIsFinal`, and every invariant lemma. The callback as the code has it is `Rules.MismatchCallbackAsWritten`; what it does after a restart is under Findings, and only that one step of it is proved about.
- Board.CreateBoard: requires an even `rows * cols`. All three profiles have one (`Board.Settings`); JavaScript's fractional `neededPairs` for an odd grid is not modelled.
- Game.MemoryGame.Tick: requires the interval to be installed (`ticking`), since the interval body runs only then.
- JavaScript numbers are doubles. The counters stay far below 2^53, so they are modelled as unbounded integers.

## Findings

| source | as written | input that shows it | evidently intended | confidence | as-written member | corrected member |
|---|---|---|---|---|---|---|
| script.js:126-131 | the 800 ms mismatch callback always empties `flipped` and sets `lockBoard` to false, even when it was scheduled on a board that a restart has since replaced | easy game on the layout `0 1 0 1 2 3 2 3`, which the deal can produce (`Behaviour.EasyBoardDealt`): click cards 0 and 1 (no match), start a new game within 800 ms, click card 0 of the new board, then let the old callback fire. Right after the callback, card 0 is face-up and unmatched, no longer under comparison, held by no pending callback, and a click on it is ignored; the game's invariant no longer holds | a callback of an earlier board leaves the board on display alone | high (not executed) | Rules.MismatchCallbackAsWritten, Behaviour.AsWrittenStrandsCard | Rules.ResolveMismatch, Behaviour.CorrectedKeepsComparison |
