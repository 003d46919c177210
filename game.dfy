/** The page script's game as an object: the module-level variables become
    fields, the card elements of the board become an array of `Card` values
    (identity plus the `flipped` and `matched` classes), and every event
    handler is a method that updates them in place.

    `State()` reads the fields and the array as a `Rules.State`; every method
    is proved to move `State()` exactly as the matching rule does, and
    `Valid()` carries the invariant `Rules.Consistent` from event to event. */
module Game {
  import Board
  import opened Rules
  import opened RuleFacts

  /** The card elements of a new board: one per dealt identity, in order,
      without the `flipped` and `matched` classes. */
  method LayOut(board: seq<nat>) returns (cards: array<Card>)
    ensures fresh(cards)
    ensures cards[..] == FaceDown(board)
  {
    cards := new Card[|board|];
    for k := 0 to |board|
      invariant forall j :: 0 <= j < k ==> cards[j] == Card(board[j], false, false)
    {
      cards[k] := Card(board[k], false, false);
    }
  }

  class MemoryGame {
    var cards: array<Card>       // the card elements, in board order
    var flipped: seq<nat>
    var matched: int
    var totalMoves: int
    var timeLeft: int
    var lockBoard: bool
    var streak: int
    var highscore: int
    var hintLimit: int
    var ticking: bool
    var screen: Screen
    var game: nat
    var mismatchTimers: seq<Reveal>
    var hintTimers: seq<Reveal>

    /** The whole game as a value. */
    ghost function State(): (s: State)
      reads this, cards
    {
      Rules.State(cards[..], flipped, matched, totalMoves, timeLeft, lockBoard, streak, highscore,
                  hintLimit, ticking, screen, game, mismatchTimers, hintTimers)
    }

    ghost predicate Valid()
      reads this, cards
    {
      Consistent(State())
    }

    /** The page before the first start. */
    constructor ()
      ensures Valid() && State() == Initial()
    {
      cards := new Card[0];
      flipped, matched, totalMoves, timeLeft := [], 0, 0, 0;
      lockBoard, streak, highscore, hintLimit := false, 0, 0, 0;
      ticking, screen, game := false, NoScreen, 0;
      mismatchTimers, hintTimers := [], [];
      new;
      InitialConsistent();
    }

    /** `startGame` with the chosen difficulty: the board is dealt with the
        random choices `rand1` and `rand2`, laid out face-down, and the
        counters are reset from the difficulty's profile. */
    method Start(d: Board.Difficulty, rand1: seq<nat>, rand2: seq<nat>)
      requires Valid()
      modifies this
      ensures var p := Board.Settings(d);
        State() == Rules.Start(old(State()), p, Board.Deal(p.rows * p.cols / 2, rand1, rand2))
      ensures Valid()
    {
      ghost var s0 := State();
      var p := Board.Settings(d);
      assert p.rows * p.cols % 2 == 0;
      var board := Board.CreateBoard(p.rows, p.cols, rand1, rand2);
      StartConsistent(s0, p, board);
      Reset(p, board);
    }

    /** The resets of `startGame` and the new board's card elements. */
    method Reset(p: Board.Profile, board: seq<nat>)
      modifies this
      ensures State() == Rules.Start(old(State()), p, board)
    {
      ResetBudgets(p);
      ResetBoard();
      cards := LayOut(board);
    }

    /** The counters that `startGame` sets from the difficulty profile. */
    method ResetBudgets(p: Board.Profile)
      modifies this
      ensures matched == 0 && totalMoves == p.moves && timeLeft == p.time && hintLimit == p.hints
      ensures cards == old(cards) && flipped == old(flipped) && lockBoard == old(lockBoard)
      ensures streak == old(streak) && highscore == old(highscore) && ticking == old(ticking)
      ensures screen == old(screen) && game == old(game)
      ensures mismatchTimers == old(mismatchTimers) && hintTimers == old(hintTimers)
    {
      matched, totalMoves, timeLeft, hintLimit := 0, p.moves, p.time, p.hints;
    }

    /** The comparison, the lock, the screen and the interval of a new board. */
    method ResetBoard()
      modifies this
      ensures flipped == [] && !lockBoard && screen == NoScreen && ticking && game == old(game) + 1
      ensures cards == old(cards) && matched == old(matched) && totalMoves == old(totalMoves)
      ensures timeLeft == old(timeLeft) && hintLimit == old(hintLimit)
      ensures streak == old(streak) && highscore == old(highscore)
      ensures mismatchTimers == old(mismatchTimers) && hintTimers == old(hintTimers)
    {
      flipped, lockBoard, screen, ticking, game := [], false, NoScreen, true, game + 1;
    }

    /** `endGame(reason)`. */
    method EndGame(reason: EndReason)
      modifies this
      ensures cards == old(cards)
      ensures State() == Rules.EndGame(old(State()), reason)
    {
      ticking := false;
      lockBoard := true;
      if reason == Win {
        screen := WinScreen;
      } else {
        screen := LoseScreen(if reason == Time then OutOfTime else OutOfMoves);
        streak := 0;
      }
    }

    /** The pair in `flipped` is compared; on a match the cards are marked and
        the game may be won, on a mismatch the board locks and the 800 ms
        callback is scheduled. */
    method ComparePair()
      requires |flipped| == 2 && flipped[0] < cards.Length && flipped[1] < cards.Length
      modifies this, cards
      ensures cards == old(cards)
      ensures State() == Rules.ComparePair(old(State()))
    {
      var first, second := flipped[0], flipped[1];
      if cards[first].id == cards[second].id {
        MatchPair(first, second);
      } else {
        lockBoard := true;
        mismatchTimers := mismatchTimers + [Reveal(game, first, second)];
      }
    }

    /** The pair at `first` and `second` matches. */
    method MatchPair(first: nat, second: nat)
      requires first < cards.Length && second < cards.Length
      modifies this, cards
      ensures cards == old(cards)
      ensures State() == Rules.MatchPair(old(State()), first, second)
    {
      Mark(first);
      Mark(second);
      matched, streak := matched + 1, streak + 1;
      if 2 * matched == cards.Length {
        highscore := Max(highscore, streak);
        EndGame(Win);
      }
      flipped := [];
    }

    /** Card `i` gains the `matched` class. */
    method Mark(i: nat)
      requires i < cards.Length
      modifies cards
      ensures cards[..] == SetMatched(old(cards[..]), i)
    {
      cards[i] := cards[i].(isMatched := true);
    }

    /** Card `i` gains (`up`) or loses the `flipped` class. */
    method Turn(i: nat, up: bool)
      requires i < cards.Length
      modifies cards
      ensures cards[..] == SetFlipped(old(cards[..]), i, up)
    {
      cards[i] := cards[i].(isFlipped := up);
    }

    /** `flipCard` on card `i`. */
    method FlipCard(i: nat)
      requires Valid() && i < cards.Length
      modifies this, cards
      ensures State() == Flip(old(State()), i)
      ensures Valid() && cards == old(cards)
    {
      ghost var s0 := State();
      FlipConsistent(s0, i);
      if lockBoard || cards[i].isFlipped || timeLeft <= 0 || totalMoves <= 0 {
        return;
      }
      Click(i);
    }

    /** A click the guard lets through: the card turns up and joins `flipped`. */
    method Click(i: nat)
      requires FlippedOnBoard(State()) && i < cards.Length && Accepts(State(), i)
      modifies this, cards
      ensures State() == Flip(old(State()), i)
      ensures cards == old(cards)
    {
      ghost var s0 := State();
      flipped := flipped + [i];
      Turn(i, true);
      assert State() == TurnUp(s0, i);
      if |flipped| == 2 {
        SecondCard();
      }
    }

    /** The second card of a pair: a move is spent, the pair is compared, and
        running out of moves with pairs left loses the game. */
    method SecondCard()
      requires |flipped| == 2 && flipped[0] < cards.Length && flipped[1] < cards.Length
      modifies this, cards
      ensures cards == old(cards)
      ensures State() == CheckMoves(Rules.ComparePair(old(State()).(totalMoves := old(totalMoves) - 1)))
    {
      totalMoves := totalMoves - 1;
      ComparePair();
      if totalMoves <= 0 && 2 * matched < cards.Length {
        EndGame(Moves);
      }
    }

    /** The once-per-second interval. */
    method Tick()
      requires Valid() && ticking
      modifies this
      ensures State() == Rules.Tick(old(State()))
      ensures Valid() && cards == old(cards)
    {
      ghost var s0 := State();
      TickConsistent(s0);
      timeLeft := timeLeft - 1;
      if timeLeft <= 0 && 2 * matched < cards.Length {
        EndGame(Time);
      }
    }

    /** The oldest pending 800 ms callback. It turns its pair down and
        releases the board only when it belongs to the board on display. */
    method ResolveMismatch()
      requires Valid() && |mismatchTimers| > 0
      modifies this, cards
      ensures State() == Rules.ResolveMismatch(old(State()))
      ensures Valid() && cards == old(cards)
    {
      ghost var s0 := State();
      ResolveMismatchConsistent(s0);
      var t := mismatchTimers[0];
      mismatchTimers := mismatchTimers[1..];
      if t.game == game {
        flipped := [];
        lockBoard := false;
        Turn(t.first, false);
        Turn(t.second, false);
      }
    }

    /** The query for cards with neither class: their positions in board order. */
    method FreePositions() returns (unmatched: seq<nat>)
      ensures unmatched == FreeCards(cards[..])
    {
      unmatched := [];
      for k := 0 to cards.Length
        invariant unmatched == FreeCards(cards[..k])
      {
        assert cards[..k + 1][..k] == cards[..k];
        if !cards[k].isMatched && !cards[k].isFlipped {
          unmatched := unmatched + [k];
        }
      }
      assert cards[..cards.Length] == cards[..];
    }

    /** The search for the first other card in `unmatched` with the picture of
        `first`: its position in `unmatched`, or `|unmatched|` when there is none. */
    method PartnerPosition(unmatched: seq<nat>, first: nat) returns (p: nat)
      requires first < cards.Length
      requires forall j :: 0 <= j < |unmatched| ==> unmatched[j] < cards.Length
      ensures p <= |unmatched|
      ensures FindPartner(cards[..], unmatched, first, 0) == if p < |unmatched| then Some(p) else None
    {
      p := 0;
      while p < |unmatched| && !(cards[unmatched[p]].id == cards[first].id && unmatched[p] != first)
        invariant p <= |unmatched|
        invariant FindPartner(cards[..], unmatched, first, p) == FindPartner(cards[..], unmatched, first, 0)
        decreases |unmatched| - p
      {
        p := p + 1;
      }
    }

    /** `showHint`: the first free card and its first partner turn face-up
        until the 1 s callback, and a hint is used. */
    method ShowHint()
      requires Valid()
      modifies this, cards
      ensures State() == Rules.ShowHint(old(State()))
      ensures Valid() && cards == old(cards)
    {
      ghost var s0 := State();
      ShowHintConsistent(s0);
      Hint();
    }

    /** The body of `showHint`. */
    method Hint()
      modifies this, cards
      ensures State() == Rules.ShowHint(old(State()))
      ensures cards == old(cards)
    {
      if hintLimit <= 0 {
        return;
      }
      var unmatched := FreePositions();
      if |unmatched| < 2 {
        return;
      }
      var first := unmatched[0];
      var p := PartnerPosition(unmatched, first);
      if p < |unmatched| {
        var partner := unmatched[p];
        ghost var s0 := State();
        assert Rules.ShowHint(s0) == Hinted(s0, first, partner);
        hintTimers := hintTimers + [Reveal(game, first, partner)];
        hintLimit := hintLimit - 1;
        Turn(first, true);
        Turn(partner, true);
      }
    }

    /** The oldest pending 1 s hint callback. */
    method HintExpire()
      requires Valid() && |hintTimers| > 0
      modifies this, cards
      ensures State() == Rules.HintExpire(old(State()))
      ensures Valid() && cards == old(cards)
    {
      ghost var s0 := State();
      HintExpireConsistent(s0);
      var t := hintTimers[0];
      hintTimers := hintTimers[1..];
      if t.game == game {
        Turn(t.first, false);
        Turn(t.second, false);
      }
    }
  }
}
