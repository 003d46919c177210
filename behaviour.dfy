/** What a player observes: the outcome of each event, the hint search, the
    finality of a result screen over any sequence of events, and the
    stranded card that the unguarded mismatch callback leaves behind after a
    restart. */
module Behaviour {
  import Board
  import opened Rules
  import opened RuleFacts

  // ---------------------------------------------------------------------
  // Clicks

  /** A click changes the game exactly when the guard lets it through, and
      an accepted click leaves the clicked card face-up. */
  lemma ClickIgnoredIffGuard(s: State, i: nat)
    requires Consistent(s) && i < |s.cards|
    ensures Flip(s, i) == s <==> !Accepts(s, i)
    ensures Accepts(s, i) ==> Flip(s, i).cards[i].isFlipped
  {
    if Accepts(s, i) {
      AcceptedClick(s, i);
      if |s.flipped| == 1 {
        assert SecondClick(s, i);
        if s.cards[s.flipped[0]].id == s.cards[i].id {
          MatchedIsFlip(s, i);
        } else {
          MismatchedIsFlip(s, i);
        }
      }
      assert Flip(s, i).cards[i] != s.cards[i];
    }
  }

  /** A matched card keeps the `flipped` class, so clicks on it are ignored. */
  lemma MatchedCardIgnored(s: State, i: nat)
    requires Consistent(s) && i < |s.cards| && s.cards[i].isMatched
    ensures Flip(s, i) == s
  {
    ClickIgnoredIffGuard(s, i);
  }

  /** A move is spent exactly on the second card of a pair, and at most two
      cards are ever under comparison. */
  lemma MoveAccounting(s: State, i: nat)
    requires Consistent(s) && i < |s.cards|
    ensures Flip(s, i).totalMoves == if Accepts(s, i) && |s.flipped| == 1 then s.totalMoves - 1 else s.totalMoves
    ensures |Flip(s, i).flipped| <= 2
  {
    FlipConsistent(s, i);
    if Accepts(s, i) {
      AcceptedClick(s, i);
      if |s.flipped| == 1 {
        assert SecondClick(s, i);
        if s.cards[s.flipped[0]].id == s.cards[i].id {
          MatchedIsFlip(s, i);
        } else {
          MismatchedIsFlip(s, i);
        }
      }
    }
  }

  /** The first card of a pair: it turns face-up and is the one card under
      comparison; nothing else changes. */
  lemma FirstClickOutcome(s: State, i: nat)
    requires Consistent(s) && i < |s.cards| && Accepts(s, i) && |s.flipped| == 0
    ensures Flip(s, i) == s.(cards := s.cards[i := s.cards[i].(isFlipped := true)], flipped := [i])
  {
  }

  /** The second card matches the first: both are marked, the pair and the
      streak are counted, nothing stays under comparison. The last pair wins
      (even on the last move) and raises the highscore to the streak; a
      matching pair that spends the last move with pairs left loses. */
  lemma MatchOutcome(s: State, i: nat)
    requires SecondClick(s, i) && s.cards[s.flipped[0]].id == s.cards[i].id
    ensures var r := Flip(s, i); var a := s.flipped[0];
      && |r.cards| == |s.cards|
      && r.cards[a] == Card(s.cards[a].id, true, true) && r.cards[i] == Card(s.cards[i].id, true, true)
      && (forall c :: 0 <= c < |s.cards| && c != a && c != i ==> r.cards[c] == s.cards[c])
      && r.flipped == [] && r.matched == s.matched + 1 && r.totalMoves == s.totalMoves - 1
      && r.screen == (if AllMatched(r) then WinScreen
                      else if r.totalMoves <= 0 && Unfinished(r) then LoseScreen(OutOfMoves)
                      else NoScreen)
      && r.streak == (if r.screen.LoseScreen? then 0 else s.streak + 1)
      && r.highscore == (if AllMatched(r) then Max(s.highscore, s.streak + 1) else s.highscore)
      && r.highscore >= s.highscore
      && r.lockBoard == (r.screen != NoScreen)
      && r.ticking == (s.ticking && r.screen == NoScreen)
    ensures var r := Flip(s, i);
      r == s.(cards := r.cards, flipped := r.flipped, matched := r.matched, totalMoves := r.totalMoves,
              streak := r.streak, highscore := r.highscore, lockBoard := r.lockBoard,
              ticking := r.ticking, screen := r.screen)
  {
    AcceptedClick(s, i);
    MatchedIsFlip(s, i);
  }

  /** The second card does not match the first: the pair stays face-up, the
      board locks and the 800 ms callback for that pair is scheduled. A
      mismatch does not reset the streak; spending the last move on it with
      pairs left loses. */
  lemma MismatchOutcome(s: State, i: nat)
    requires SecondClick(s, i) && s.cards[s.flipped[0]].id != s.cards[i].id
    ensures var r := Flip(s, i); var a := s.flipped[0];
      && r.cards == s.cards[i := s.cards[i].(isFlipped := true)]
      && r.flipped == [a, i] && r.lockBoard
      && r.mismatchTimers == s.mismatchTimers + [Reveal(s.game, a, i)]
      && r.matched == s.matched && r.totalMoves == s.totalMoves - 1
      && r.screen == (if r.totalMoves <= 0 && Unfinished(r) then LoseScreen(OutOfMoves) else NoScreen)
      && r.streak == (if r.screen.LoseScreen? then 0 else s.streak)
      && r.highscore == s.highscore
      && r.ticking == (s.ticking && r.screen == NoScreen)
    ensures var r := Flip(s, i);
      r == s.(cards := r.cards, flipped := r.flipped, lockBoard := r.lockBoard, totalMoves := r.totalMoves,
              mismatchTimers := r.mismatchTimers, streak := r.streak, ticking := r.ticking, screen := r.screen)
  {
    AcceptedClick(s, i);
    MismatchedIsFlip(s, i);
  }

  /** The comparison of a full pair touches only the cards, the comparison,
      the counts, the scores, the lock, the interval, the screen and the
      mismatch queue. A match marks both cards and no other, counts the pair,
      extends the streak and empties the comparison; if it completes the
      board, the game is won and the highscore takes the streak. A mismatch
      only locks the board and queues the callback for the pair. */
  lemma ComparePairOutcome(t: State)
    requires |t.flipped| == 2 && t.flipped[0] < |t.cards| && t.flipped[1] < |t.cards|
    ensures var r := ComparePair(t);
      r == t.(cards := r.cards, flipped := r.flipped, matched := r.matched, streak := r.streak,
              highscore := r.highscore, lockBoard := r.lockBoard, ticking := r.ticking,
              screen := r.screen, mismatchTimers := r.mismatchTimers)
    ensures var r := ComparePair(t); var a, b := t.flipped[0], t.flipped[1];
      t.cards[a].id == t.cards[b].id ==>
        && r.cards[a].isMatched && r.cards[b].isMatched && r.matched == t.matched + 1
        && r.flipped == [] && r.mismatchTimers == t.mismatchTimers
        && r.cards == t.cards[a := t.cards[a].(isMatched := true)][b := t.cards[b].(isMatched := true)]
        && r.streak == t.streak + 1
        && r.screen == (if AllMatched(r) then WinScreen else t.screen)
        && r.highscore == (if AllMatched(r) then Max(t.highscore, t.streak + 1) else t.highscore)
        && r.lockBoard == (AllMatched(r) || t.lockBoard)
        && r.ticking == (!AllMatched(r) && t.ticking)
    ensures var r := ComparePair(t); var a, b := t.flipped[0], t.flipped[1];
      t.cards[a].id != t.cards[b].id ==>
        && r.cards == t.cards && r.flipped == t.flipped && r.matched == t.matched && r.lockBoard
        && r.mismatchTimers == t.mismatchTimers + [Reveal(t.game, a, b)]
        && r == t.(lockBoard := true, mismatchTimers := t.mismatchTimers + [Reveal(t.game, a, b)])
  {
  }

  /** The moves check: out of moves with pairs left, the game is lost (the
      interval stops, the board locks, the streak resets); otherwise nothing
      changes. */
  lemma CheckMovesOutcome(t: State)
    ensures t.totalMoves <= 0 && Unfinished(t) ==>
      CheckMoves(t) == t.(ticking := false, lockBoard := true, screen := LoseScreen(OutOfMoves), streak := 0)
    ensures !(t.totalMoves <= 0 && Unfinished(t)) ==> CheckMoves(t) == t
  {
  }

  // ---------------------------------------------------------------------
  // Timers

  /** The corrected 800 ms callback: the one of the board on display turns
      down exactly the pair under comparison and unlocks the board; one left
      over from an earlier board changes nothing on the board on display.
      Besides the cards, the comparison, the lock and the queue, nothing
      changes. */
  lemma MismatchCallbackOutcome(s: State)
    requires Consistent(s) && |s.mismatchTimers| > 0
    ensures var r := ResolveMismatch(s); var t := s.mismatchTimers[0];
      && r.mismatchTimers == s.mismatchTimers[1..]
      && |r.cards| == |s.cards|
      && r.screen == s.screen && r.matched == s.matched && r.totalMoves == s.totalMoves
      && (Live(s, t) ==>
            && s.flipped == [t.first, t.second] && r.flipped == [] && !r.lockBoard
            && forall c :: 0 <= c < |s.cards| ==>
                 r.cards[c] == if c == t.first || c == t.second then s.cards[c].(isFlipped := false) else s.cards[c])
      && (!Live(s, t) ==> r.cards == s.cards && r.flipped == s.flipped && r.lockBoard == s.lockBoard)
    ensures var r := ResolveMismatch(s);
      r == s.(cards := r.cards, flipped := r.flipped, lockBoard := r.lockBoard, mismatchTimers := s.mismatchTimers[1..])
  {
    if Live(s, s.mismatchTimers[0]) {
      LiveMismatchPair(s);
    }
  }

  /** The 1 s hint callback turns its two cards down if they are on the board
      on display, and changes nothing else: only the cards and the queue of
      hint callbacks differ. */
  lemma HintCallbackOutcome(s: State)
    requires Consistent(s) && |s.hintTimers| > 0
    ensures var r := HintExpire(s); var t := s.hintTimers[0];
      && r.hintTimers == s.hintTimers[1..]
      && |r.cards| == |s.cards|
      && r.flipped == s.flipped && r.lockBoard == s.lockBoard && r.screen == s.screen
      && (Live(s, t) ==> forall c :: 0 <= c < |s.cards| ==>
            r.cards[c] == if c == t.first || c == t.second then s.cards[c].(isFlipped := false) else s.cards[c])
      && (!Live(s, t) ==> r.cards == s.cards)
      && (Live(s, t) ==> s.cards[t.first].isFlipped && s.cards[t.second].isFlipped)
    ensures HintExpire(s) == s.(cards := HintExpire(s).cards, hintTimers := s.hintTimers[1..])
  {
    if Live(s, s.hintTimers[0]) {
      ExpireShown(s);
    }
  }

  /** The once-per-second tick counts down; the tick that takes the time to
      zero with pairs left ends the game as lost on time. */
  lemma TickOutcome(s: State)
    requires Consistent(s) && s.ticking
    ensures var r := Tick(s);
      && r.timeLeft == s.timeLeft - 1
      && r.cards == s.cards && r.flipped == s.flipped && r.matched == s.matched
      && (!r.ticking <==> s.timeLeft <= 1 && Unfinished(s))
      && (!r.ticking ==> r.screen == LoseScreen(OutOfTime) && r.streak == 0 && r.lockBoard)
      && (r.ticking ==> r.screen == s.screen && r.streak == s.streak && r.lockBoard == s.lockBoard)
      && r.highscore == s.highscore
    ensures var r := Tick(s);
      r == s.(timeLeft := r.timeLeft, ticking := r.ticking, lockBoard := r.lockBoard, screen := r.screen, streak := r.streak)
  {
  }

  // ---------------------------------------------------------------------
  // A new game

  /** A new game lays the dealt board out face-down with the budgets of
      the chosen difficulty. Streak and highscore carry over, and every
      callback still pending belongs to an earlier board. */
  lemma StartOutcome(s: State, p: Board.Profile, board: seq<nat>)
    requires WellFormed(s)
    ensures var r := Start(s, p, board);
      && Consistent(r)
      && |r.cards| == |board|
      && (forall c :: 0 <= c < |r.cards| ==> Free(r.cards[c]) && r.cards[c].id == board[c])
      && r.flipped == [] && r.matched == 0
      && r.totalMoves == p.moves && r.timeLeft == p.time && r.hintLimit == p.hints
      && !r.lockBoard && r.ticking && r.screen == NoScreen
      && r.streak == s.streak && r.highscore == s.highscore
      && Shown(r.hintTimers, r.game) == []
      && (forall k :: 0 <= k < |r.mismatchTimers| ==> !Live(r, r.mismatchTimers[k]))
    ensures var r := Start(s, p, board);
      r.mismatchTimers == s.mismatchTimers && r.hintTimers == s.hintTimers && r.game == s.game + 1
  {
    StartConsistent(s, p, board);
    ShownStale(s.hintTimers, s.game + 1);
  }

  // ---------------------------------------------------------------------
  // Hints

  /** The first card of the board, in board order, that is neither matched
      nor face-up. */
  ghost predicate FirstFree(cards: seq<Card>, f: nat) {
    f < |cards| && Free(cards[f]) && forall k :: 0 <= k < f ==> !Free(cards[k])
  }

  /** The first free card, in board order, that shows the same picture as
      card `f` without being `f`. */
  ghost predicate FirstPartner(cards: seq<Card>, f: nat, p: nat)
    requires f < |cards|
  {
    && p < |cards| && Free(cards[p]) && IsPartner(cards, f, p)
    && forall k :: 0 <= k < p && Free(cards[k]) ==> !IsPartner(cards, f, k)
  }

  /** The first free card has a free partner. */
  ghost predicate HintAvailable(cards: seq<Card>) {
    exists f: nat, p: nat :: FirstFree(cards, f) && FirstPartner(cards, f, p)
  }

  /** A free card before the `j`-th entry of the free-card query is one of
      the entries before it. */
  lemma FreeCardsOrder(cards: seq<Card>)
    ensures var un := FreeCards(cards);
      forall j, k :: 0 <= j < |un| && 0 <= k < un[j] && Free(cards[k]) ==>
        exists j' :: 0 <= j' < j && un[j'] == k
  {
    var un := FreeCards(cards);
    forall j, k | 0 <= j < |un| && 0 <= k < un[j] && Free(cards[k])
      ensures exists j' :: 0 <= j' < j && un[j'] == k
    {
      var i :| 0 <= i < |un| && un[i] == k;
      assert i < j;
    }
  }

  /** The head of the free-card query is the first free card. */
  lemma FreeHead(cards: seq<Card>)
    ensures var un := FreeCards(cards);
      && (|un| > 0 ==> FirstFree(cards, un[0]))
      && forall f: nat :: FirstFree(cards, f) ==> |un| > 0 && un[0] == f
  {
    var un := FreeCards(cards);
    FreeCardsOrder(cards);
    forall f: nat | FirstFree(cards, f)
      ensures |un| > 0 && un[0] == f
    {
      var i :| 0 <= i < |un| && un[i] == f;
      assert un[0] <= f;
    }
  }

  /** A first free card and a partner are two entries of the free-card query. */
  lemma PartnerNeedsTwo(cards: seq<Card>)
    ensures forall f: nat, p: nat :: FirstFree(cards, f) && FirstPartner(cards, f, p) ==> |FreeCards(cards)| >= 2
  {
    var un := FreeCards(cards);
    FreeHead(cards);
    forall f: nat, p: nat | FirstFree(cards, f) && FirstPartner(cards, f, p)
      ensures |un| >= 2
    {
      var j :| 0 <= j < |un| && un[j] == p;
      assert j != 0;
    }
  }

  /** The partner search over the free cards finds the first partner, and
      finds none exactly when there is none. */
  lemma PartnerSearch(cards: seq<Card>, f: nat)
    requires FirstFree(cards, f)
    ensures var un := FreeCards(cards);
      match FindPartner(cards, un, f, 0)
      case None => forall p: nat :: !FirstPartner(cards, f, p)
      case Some(j) => j < |un| && forall p: nat :: FirstPartner(cards, f, p) <==> p == un[j]
  {
    var un := FreeCards(cards);
    match FindPartner(cards, un, f, 0)
    case None =>
      forall p: nat | p < |cards| && Free(cards[p])
        ensures !IsPartner(cards, f, p)
      {
        var j :| 0 <= j < |un| && un[j] == p;
      }
    case Some(j) =>
      FreeCardsOrder(cards);
      assert FirstPartner(cards, f, un[j]);
      forall p: nat | FirstPartner(cards, f, p)
        ensures p == un[j]
      {
        assert !(p < un[j]) && !(un[j] < p);
      }
  }

  /** A hint request: with hints left and a first free card that has a free
      partner, both turn face-up for one second and a hint is used; in every
      other case (no hints left, fewer than two free cards, no partner)
      nothing changes. A hint never touches the pair under comparison, the
      moves, the matched pairs or the streak. */
  lemma ShowHintOutcome(s: State)
    requires WellFormed(s)
    ensures !(s.hintLimit > 0 && HintAvailable(s.cards)) ==> ShowHint(s) == s
    ensures forall f: nat, p: nat :: s.hintLimit > 0 && FirstFree(s.cards, f) && FirstPartner(s.cards, f, p) ==>
      ShowHint(s) == s.(cards := s.cards[f := s.cards[f].(isFlipped := true)][p := s.cards[p].(isFlipped := true)],
                        hintTimers := s.hintTimers + [Reveal(s.game, f, p)],
                        hintLimit := s.hintLimit - 1)
  {
    var un := FreeCards(s.cards);
    FreeHead(s.cards);
    PartnerNeedsTwo(s.cards);
    if s.hintLimit > 0 && |un| >= 2 {
      PartnerSearch(s.cards, un[0]);
      match FindPartner(s.cards, un, un[0], 0)
      case None =>
        assert ShowHint(s) == s;
      case Some(j) =>
        assert FirstPartner(s.cards, un[0], un[j]);
        assert ShowHint(s) == Hinted(s, un[0], un[j]);
    }
  }

  // ---------------------------------------------------------------------
  // Sequences of events

  /** The events that reach the page between two starts: a click on a card,
      a tick of the interval, the oldest pending mismatch or hint callback,
      and a click on the hint button. */
  datatype Event = Click(card: nat) | Second | MismatchFires | HintRequest | HintFires

  /** One event. Events that cannot reach the page in the state (a click off
      the board, a tick without an interval, a callback with none pending)
      change nothing. */
  function Step(s: State, e: Event): (r: State)
    requires Consistent(s)
    ensures Consistent(r)
  {
    match e
    case Click(i) =>
      if i < |s.cards| then FlipConsistent(s, i); Flip(s, i) else s
    case Second =>
      if s.ticking then TickConsistent(s); Tick(s) else s
    case MismatchFires =>
      if |s.mismatchTimers| > 0 then ResolveMismatchConsistent(s); ResolveMismatch(s) else s
    case HintRequest =>
      ShowHintConsistent(s); ShowHint(s)
    case HintFires =>
      if |s.hintTimers| > 0 then HintExpireConsistent(s); HintExpire(s) else s
  }

  /** The events in order. */
  function Run(s: State, es: seq<Event>): (r: State)
    requires Consistent(s)
    ensures Consistent(r)
    decreases |es|
  {
    if es == [] then s else Run(Step(s, es[0]), es[1..])
  }

  /** What a result screen freezes. */
  ghost predicate Frozen(s: State, r: State) {
    && r.screen == s.screen && r.game == s.game && |r.cards| == |s.cards|
    && r.matched == s.matched && r.totalMoves == s.totalMoves && r.timeLeft == s.timeLeft
    && r.streak == s.streak && r.highscore == s.highscore
    && forall c :: 0 <= c < |s.cards| ==> r.cards[c].id == s.cards[c].id && r.cards[c].isMatched == s.cards[c].isMatched
  }

  /** Behind a result screen every click is ignored. */
  lemma OverClick(s: State, i: nat)
    requires Consistent(s) && s.screen != NoScreen && i < |s.cards|
    ensures Flip(s, i) == s
  {
    assert !Accepts(s, i);
  }

  lemma OverMismatchFires(s: State)
    requires Consistent(s) && s.screen != NoScreen && |s.mismatchTimers| > 0
    ensures Frozen(s, ResolveMismatch(s))
  {
    MismatchCallbackOutcome(s);
  }

  lemma OverHintFires(s: State)
    requires Consistent(s) && s.screen != NoScreen && |s.hintTimers| > 0
    ensures Frozen(s, HintExpire(s))
  {
    HintCallbackOutcome(s);
  }

  lemma OverHintRequest(s: State)
    requires Consistent(s) && s.screen != NoScreen
    ensures Frozen(s, ShowHint(s))
  {
    ShowHintOutcome(s);
    if s.hintLimit > 0 && HintAvailable(s.cards) {
      var f: nat, p: nat :| FirstFree(s.cards, f) && FirstPartner(s.cards, f, p);
    }
  }

  /** Behind a result screen, one event changes at most the face-up flags
      (a hint or a callback) and the lock. */
  lemma OverStep(s: State, e: Event)
    requires Consistent(s) && s.screen != NoScreen
    ensures Frozen(s, Step(s, e))
  {
    match e
    case Click(i) =>
      if i < |s.cards| {
        OverClick(s, i);
      }
    case Second =>
      assert !s.ticking;
    case MismatchFires =>
      if |s.mismatchTimers| > 0 {
        OverMismatchFires(s);
      }
    case HintRequest =>
      OverHintRequest(s);
    case HintFires =>
      if |s.hintTimers| > 0 {
        OverHintFires(s);
      }
  }

  /** A result screen is final until the next start: whatever events follow,
      the screen, the board's pictures and matched cards, the counters and
      the scores stay as they are, and every click is ignored. */
  lemma {:induction false} GameOverIsFinal(s: State, es: seq<Event>)
    requires Consistent(s) && s.screen != NoScreen
    ensures Frozen(s, Run(s, es))
    ensures forall i :: 0 <= i < |Run(s, es).cards| ==> Flip(Run(s, es), i) == Run(s, es)
    decreases |es|
  {
    if es == [] {
      forall i | 0 <= i < |s.cards| ensures Flip(s, i) == s {
        OverClick(s, i);
      }
    } else {
      var t := Step(s, es[0]);
      OverStep(s, es[0]);
      GameOverIsFinal(t, es[1..]);
    }
  }

  // ---------------------------------------------------------------------
  // A restart with a comparison pending

  /** An easy board with the pictures in pairs `0 1 0 1 2 3 2 3`. */
  function EasyBoard(): (board: seq<nat>) {
    [0, 1, 0, 1, 2, 3, 2, 3]
  }

  /** With no choices, the shuffle keeps the order. */
  lemma {:induction false} ShuffleWithoutChoices(s: seq<nat>)
    ensures Board.Shuffle(s, []) == s
    decreases |s|
  {
    if |s| > 0 {
      assert s[..0] + s[1..] == s[1..];
      ShuffleWithoutChoices(s[1..]);
    }
  }

  /** Four pairs take one round of the pool loop: the pool is the catalog. */
  lemma EasyPool()
    ensures Board.Pool(4) == [0, 1, 2, 3]
  {
    assert Board.Rounds(4) == 1;
    assert Board.Cycle(1) == Board.Catalog();
  }

  /** Without choices, the four selected pictures are the catalog in order. */
  lemma EasySelection()
    ensures Board.Selected(4, []) == [0, 1, 2, 3]
  {
    EasyPool();
    ShuffleWithoutChoices([0, 1, 2, 3]);
  }

  /** Two pairs of runs, regrouped: the same pictures, as often. */
  lemma Regrouped(low: seq<nat>, high: seq<nat>)
    ensures multiset(low + low + high + high) == multiset(low + high + (low + high))
  {
    assert multiset(low + low + high + high) == multiset(low) + multiset(low) + multiset(high) + multiset(high);
  }

  /** The scenario's layout is a permutation of the selection doubled. */
  lemma EasyLayout()
    ensures multiset(EasyBoard()) == multiset([0, 1, 2, 3] + [0, 1, 2, 3])
  {
    var low: seq<nat>, high: seq<nat> := [0, 1], [2, 3];
    assert EasyBoard() == low + low + high + high;
    assert [0, 1, 2, 3] + [0, 1, 2, 3] == low + high + (low + high);
    Regrouped(low, high);
  }

  /** The easy board of the scenario is one the page can deal: some run of
      the second shuffle lays the selection out as `EasyBoard()`. */
  lemma EasyBoardDealt() returns (rand2: seq<nat>)
    ensures Board.Deal(4, [], rand2) == EasyBoard()
  {
    EasySelection();
    EasyLayout();
    rand2 := Board.ShuffleReaches([0, 1, 2, 3] + [0, 1, 2, 3], EasyBoard());
  }

  /** A game is started, a mismatching pair (cards 0 and 1) is clicked, a new
      game is started on the same layout within 800 ms, and card 0 of the new
      board is clicked. The callback of the first board is still pending. */
  function RestartScenario(): (s: State)
    ensures Consistent(s)
    ensures s.flipped == [0] && s.game == 2 && |s.cards| == 8 && s.hintTimers == []
    ensures s.mismatchTimers == [Reveal(1, 0, 1)] && !Live(s, s.mismatchTimers[0])
  {
    var p := Board.Settings(Board.Easy);
    var s1 := Start(Initial(), p, EasyBoard());
    assert Accepts(s1, 0);
    var s2 := Flip(s1, 0);
    assert s2.flipped == [0];
    assert Accepts(s2, 1);
    MismatchedIsFlip(s2, 1);
    var s3 := Flip(s2, 1);
    var s4 := Start(s3, p, EasyBoard());
    StartConsistent(s3, p, EasyBoard());
    assert Accepts(s4, 0);
    var s5 := Flip(s4, 0);
    FlipConsistent(s4, 0);
    assert s5.flipped == [0];
    s5
  }

  /** The stale callback as the page script has it strands card 0: it stays
      face-up and unmatched, no longer under comparison and held by no
      pending callback, and clicks on it are ignored; the invariant is
      broken. */
  lemma AsWrittenStrandsCard()
    ensures var w := MismatchCallbackAsWritten(RestartScenario());
      && w.cards[0].isFlipped && !w.cards[0].isMatched
      && w.flipped == [] && !w.lockBoard
      && w.mismatchTimers == [] && Shown(w.hintTimers, w.game) == []
      && Flip(w, 0) == w
      && !Consistent(w)
  {
    var s := RestartScenario();
    var w := MismatchCallbackAsWritten(s);
    assert s.cards[0].isFlipped && !s.cards[0].isMatched by {
      assert 0 in s.flipped;
    }
    assert !CardsOk(w);
  }

  /** The corrected callback ignores the earlier board: card 0 stays under
      comparison and the invariant holds. */
  lemma CorrectedKeepsComparison()
    ensures var r := ResolveMismatch(RestartScenario());
      && r.flipped == [0] && r.cards == RestartScenario().cards && r.mismatchTimers == []
      && Consistent(r)
  {
    ResolveMismatchConsistent(RestartScenario());
  }
}
