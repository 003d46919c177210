/** The game's rules as functions on a snapshot of the whole game state: the
    module-level variables of the page script, the cards' class flags, which
    timers are pending, and which result screen shows.

    Every event of the game is one function from the state before to the
    state after: a click on a card (`Flip`), the once-per-second tick
    (`Tick`), the delayed mismatch callback (`ResolveMismatch`), a hint
    request (`ShowHint`) and its delayed revert (`HintExpire`), and a new
    game (`Start`). `Consistent` is the invariant all of them keep. */
module Rules {
  import Board

  datatype Option<T> = None | Some(value: T)

  /** One card: its identity (an index into the image catalog) and whether it
      carries the `flipped` and the `matched` class. */
  datatype Card = Card(id: nat, isFlipped: bool, isMatched: bool)

  /** A pending delayed callback that will turn two cards back face-down.
      `game` is the number of the board whose card nodes it captured. */
  datatype Reveal = Reveal(game: nat, first: nat, second: nat)

  /** The argument of `endGame`. */
  datatype EndReason = Win | Moves | Time

  /** The two messages of the lose screen. */
  datatype LossReason = OutOfMoves | OutOfTime

  /** Which result screen is visible. */
  datatype Screen = NoScreen | WinScreen | LoseScreen(reason: LossReason)

  datatype State = State(
    cards: seq<Card>,
    flipped: seq<nat>,           // positions of the cards under comparison
    matched: int,                // pairs matched in this game
    totalMoves: int,             // moves left
    timeLeft: int,               // seconds left
    lockBoard: bool,
    streak: int,
    highscore: int,
    hintLimit: int,              // hints left
    ticking: bool,               // the once-per-second interval is installed
    screen: Screen,
    game: nat,                   // number of the board on display
    mismatchTimers: seq<Reveal>, // pending 800 ms callbacks, oldest first
    hintTimers: seq<Reveal>)     // pending 1 s callbacks, oldest first

  function Max(a: int, b: int): (m: int) {
    if a < b then b else a
  }

  /** `matched === cards.length / 2`, exact for any board length. */
  predicate AllMatched(s: State) {
    2 * s.matched == |s.cards|
  }

  /** `matched < cards.length / 2`, exact for any board length. */
  predicate Unfinished(s: State) {
    2 * s.matched < |s.cards|
  }

  /** A card that the hint query selects: neither matched nor flipped. */
  predicate Free(c: Card) {
    !c.isMatched && !c.isFlipped
  }

  /** A callback belongs to the board on display. */
  predicate Live(s: State, t: Reveal) {
    t.game == s.game
  }

  ghost predicate TimerOk(s: State, t: Reveal) {
    t.game <= s.game && (Live(s, t) ==> t.first < |s.cards| && t.second < |s.cards|)
  }

  /** The cards under comparison lie on the board. */
  ghost predicate FlippedOnBoard(s: State) {
    forall k :: 0 <= k < |s.flipped| ==> s.flipped[k] < |s.cards|
  }

  /** Every position the state refers to lies on the board it refers to. */
  ghost predicate WellFormed(s: State) {
    && FlippedOnBoard(s)
    && (forall k :: 0 <= k < |s.mismatchTimers| ==> TimerOk(s, s.mismatchTimers[k]))
    && (forall k :: 0 <= k < |s.hintTimers| ==> TimerOk(s, s.hintTimers[k]))
  }

  function SetFlipped(cards: seq<Card>, i: nat, b: bool): (r: seq<Card>)
    requires i < |cards|
  {
    cards[i := cards[i].(isFlipped := b)]
  }

  function SetMatched(cards: seq<Card>, i: nat): (r: seq<Card>)
    requires i < |cards|
  {
    cards[i := cards[i].(isMatched := true)]
  }

  /** Both cards of a callback lose the `flipped` class. */
  function Unflip(cards: seq<Card>, t: Reveal): (r: seq<Card>)
    requires t.first < |cards| && t.second < |cards|
  {
    SetFlipped(SetFlipped(cards, t.first, false), t.second, false)
  }

  /** The state of the page before any game is started. */
  function Initial(): (s: State) {
    State([], [], 0, 0, 0, false, 0, 0, 0, false, NoScreen, 0, [], [])
  }

  /** The cards of a new board: the dealt identities, face-down and unmatched. */
  function FaceDown(board: seq<nat>): (cards: seq<Card>)
    ensures |cards| == |board|
    ensures forall k :: 0 <= k < |board| ==> cards[k] == Card(board[k], false, false)
  {
    seq(|board|, k requires 0 <= k < |board| => Card(board[k], false, false))
  }

  /** A new game on the dealt `board` with the budgets of profile `p`. The
      interval is replaced; streak, highscore and pending callbacks of the
      previous board are kept. */
  function Start(s: State, p: Board.Profile, board: seq<nat>): (r: State)
  {
    s.(cards := FaceDown(board),
       flipped := [], matched := 0, totalMoves := p.moves, timeLeft := p.time,
       hintLimit := p.hints, lockBoard := false, screen := NoScreen,
       ticking := true, game := s.game + 1)
  }

  /** `endGame(reason)`: stops the interval, locks the board, shows the result
      screen and, on a loss, resets the streak. */
  function EndGame(s: State, reason: EndReason): (r: State)
    ensures r.cards == s.cards && r.flipped == s.flipped && r.game == s.game
    ensures r.mismatchTimers == s.mismatchTimers && r.hintTimers == s.hintTimers
  {
    var t := s.(ticking := false, lockBoard := true);
    if reason == Win then t.(screen := WinScreen)
    else t.(screen := LoseScreen(if reason == Time then OutOfTime else OutOfMoves), streak := 0)
  }

  /** The guard of a click: a click counts only on an unlocked board, on a
      card without the `flipped` class, with time and moves left. */
  predicate Accepts(s: State, i: nat)
    requires i < |s.cards|
  {
    !s.lockBoard && !s.cards[i].isFlipped && s.timeLeft > 0 && s.totalMoves > 0
  }

  /** A click on card `i`. */
  function Flip(s: State, i: nat): (r: State)
    requires FlippedOnBoard(s) && i < |s.cards|
  {
    if !Accepts(s, i) then s
    else
      var t := TurnUp(s, i);
      if |t.flipped| != 2 then t
      else CheckMoves(ComparePair(t.(totalMoves := t.totalMoves - 1)))
  }

  /** An accepted click turns the card up and puts it under comparison. */
  function TurnUp(s: State, i: nat): (r: State)
    requires i < |s.cards|
  {
    s.(cards := SetFlipped(s.cards, i, true), flipped := s.flipped + [i])
  }

  /** The two cards in `flipped` are compared: a match marks them, counts the
      pair and may win the game; a mismatch locks the board and schedules the
      800 ms callback. */
  function ComparePair(t: State): (r: State)
    requires |t.flipped| == 2 && t.flipped[0] < |t.cards| && t.flipped[1] < |t.cards|
  {
    var a, b := t.flipped[0], t.flipped[1];
    if t.cards[a].id == t.cards[b].id then MatchPair(t, a, b)
    else t.(lockBoard := true, mismatchTimers := t.mismatchTimers + [Reveal(t.game, a, b)])
  }

  /** A matching pair at `a` and `b`: both are marked, the pair is counted,
      the streak grows, and the last pair wins the game. */
  function MatchPair(t: State, a: nat, b: nat): (r: State)
    requires a < |t.cards| && b < |t.cards|
  {
    var u := t.(cards := SetMatched(SetMatched(t.cards, a), b),
                matched := t.matched + 1, streak := t.streak + 1);
    var w := if AllMatched(u) then EndGame(u.(highscore := Max(u.highscore, u.streak)), Win) else u;
    w.(flipped := [])
  }

  /** After a pair is resolved: out of moves with pairs left loses the game. */
  function CheckMoves(t: State): (r: State) {
    if t.totalMoves <= 0 && Unfinished(t) then EndGame(t, Moves) else t
  }

  /** The body of the once-per-second interval. */
  function Tick(s: State): (r: State)
    requires s.ticking
  {
    var t := s.(timeLeft := s.timeLeft - 1);
    if t.timeLeft <= 0 && Unfinished(t) then EndGame(t, Time) else t
  }

  /** The oldest pending 800 ms callback fires. Corrected behaviour: a callback
      left over from an earlier board does nothing to the board on display. */
  function ResolveMismatch(s: State): (r: State)
    requires |s.mismatchTimers| > 0 && TimerOk(s, s.mismatchTimers[0])
  {
    var t := s.mismatchTimers[0];
    var rest := s.mismatchTimers[1..];
    if Live(s, t) then
      s.(cards := Unflip(s.cards, t), flipped := [], lockBoard := false, mismatchTimers := rest)
    else
      s.(mismatchTimers := rest)
  }

  /** The oldest pending 800 ms callback fires, as the page script has it: it
      always empties `flipped` and unlocks the board, even when it was
      scheduled on an earlier board (whose card nodes are no longer shown). */
  function MismatchCallbackAsWritten(s: State): (r: State)
    requires |s.mismatchTimers| > 0 && TimerOk(s, s.mismatchTimers[0])
  {
    var t := s.mismatchTimers[0];
    var rest := s.mismatchTimers[1..];
    var cards := if Live(s, t) then Unflip(s.cards, t) else s.cards;
    s.(cards := cards, flipped := [], lockBoard := false, mismatchTimers := rest)
  }

  /** The positions of the free cards, in board order. */
  function FreeCards(cards: seq<Card>): (r: seq<nat>)
    ensures forall j :: 0 <= j < |r| ==> r[j] < |cards| && Free(cards[r[j]])
    ensures forall k :: 0 <= k < |cards| && Free(cards[k]) ==> k in r
    ensures forall j, j' :: 0 <= j < j' < |r| ==> r[j] < r[j']
  {
    if |cards| == 0 then []
    else
      var n := |cards| - 1;
      FreeCards(cards[..n]) + (if Free(cards[n]) then [n] else [])
  }

  /** A partner for the card at `first`: another card in `un` with the same
      identity. */
  predicate IsPartner(cards: seq<Card>, first: nat, c: nat)
    requires first < |cards| && c < |cards|
  {
    cards[c].id == cards[first].id && c != first
  }

  /** The position in `un`, from `from` on, of the first partner of `first`. */
  function FindPartner(cards: seq<Card>, un: seq<nat>, first: nat, from: nat): (p: Option<nat>)
    requires first < |cards| && forall j :: 0 <= j < |un| ==> un[j] < |cards|
    ensures p.Some? ==> from <= p.value < |un| && IsPartner(cards, first, un[p.value])
    ensures p.Some? ==> forall j :: from <= j < p.value ==> !IsPartner(cards, first, un[j])
    ensures p.None? ==> forall j :: from <= j < |un| ==> !IsPartner(cards, first, un[j])
    decreases |un| - from
  {
    if from >= |un| then None
    else if IsPartner(cards, first, un[from]) then Some(from)
    else FindPartner(cards, un, first, from + 1)
  }

  /** A hint request. */
  function ShowHint(s: State): (r: State)
  {
    if s.hintLimit <= 0 then s
    else
      var un := FreeCards(s.cards);
      if |un| < 2 then s
      else
        var first := un[0];
        match FindPartner(s.cards, un, first, 0)
        case None => s
        case Some(p) =>
          var partner := un[p];
          s.(cards := SetFlipped(SetFlipped(s.cards, first, true), partner, true),
             hintTimers := s.hintTimers + [Reveal(s.game, first, partner)],
             hintLimit := s.hintLimit - 1)
  }

  /** The oldest pending 1 s hint callback fires; on an earlier board it only
      touches card nodes that are no longer shown. */
  function HintExpire(s: State): (r: State)
    requires |s.hintTimers| > 0 && TimerOk(s, s.hintTimers[0])
  {
    var t := s.hintTimers[0];
    var rest := s.hintTimers[1..];
    if Live(s, t) then s.(cards := Unflip(s.cards, t), hintTimers := rest)
    else s.(hintTimers := rest)
  }

  // ---------------------------------------------------------------------
  // The invariant

  /** The cards that the callbacks of `q` scheduled on board `game` hold
      face-up, oldest first. */
  function Shown(q: seq<Reveal>, game: nat): (r: seq<nat>)
    ensures |r| <= 2 * |q|
  {
    if q == [] then []
    else (if q[0].game == game then [q[0].first, q[0].second] else []) + Shown(q[1..], game)
  }

  predicate Distinct(xs: seq<nat>) {
    forall j, k :: 0 <= j < k < |xs| ==> xs[j] != xs[k]
  }

  /** A card a hint shows: face-up, unmatched and not under comparison. */
  ghost predicate HintCardOk(s: State, c: nat) {
    c < |s.cards| && s.cards[c].isFlipped && !s.cards[c].isMatched && c !in s.flipped
  }

  ghost predicate FlippedOk(s: State)
    requires WellFormed(s)
  {
    && |s.flipped| <= 2
    && (forall j :: 0 <= j < |s.flipped| ==> s.cards[s.flipped[j]].isFlipped && !s.cards[s.flipped[j]].isMatched)
    && (|s.flipped| == 2 ==> s.flipped[0] != s.flipped[1] && s.lockBoard)
  }

  /** At most the newest mismatch callback is live, and it is live exactly
      when a pair is under comparison: it holds that very pair. */
  ghost predicate MismatchTimersOk(s: State) {
    var q := s.mismatchTimers;
    && (forall k :: 0 <= k < |q| - 1 ==> !Live(s, q[k]))
    && (|s.flipped| == 2 <==> |q| > 0 && Live(s, q[|q| - 1]))
    && (|s.flipped| == 2 ==> q[|q| - 1] == Reveal(s.game, s.flipped[0], s.flipped[1]))
  }

  /** Live hint callbacks hold distinct cards that were free when the hint
      was given and that nothing else has touched since. */
  ghost predicate HintTimersOk(s: State) {
    var shown := Shown(s.hintTimers, s.game);
    Distinct(shown) && forall j :: 0 <= j < |shown| ==> HintCardOk(s, shown[j])
  }

  /** Every face-up card is matched, under comparison, or shown by a live hint. */
  ghost predicate CardsOk(s: State) {
    forall c :: 0 <= c < |s.cards| && s.cards[c].isFlipped && !s.cards[c].isMatched ==>
      c in s.flipped || c in Shown(s.hintTimers, s.game)
  }

  ghost predicate MatchedFlipped(s: State) {
    forall c :: 0 <= c < |s.cards| && s.cards[c].isMatched ==> s.cards[c].isFlipped
  }

  /** A result screen is final until the next start: the interval is gone, a
      won board stays locked with nothing under comparison, and a lost game
      keeps the exhausted budget that lost it. */
  ghost predicate ScreenOk(s: State) {
    match s.screen
    case NoScreen => true
    case WinScreen => !s.ticking && s.lockBoard && s.flipped == []
    case LoseScreen(reason) =>
      !s.ticking && (if reason == OutOfMoves then s.totalMoves <= 0 else s.timeLeft <= 0)
  }

  ghost predicate Consistent(s: State) {
    && WellFormed(s)
    && FlippedOk(s)
    && MismatchTimersOk(s)
    && HintTimersOk(s)
    && MatchedFlipped(s)
    && CardsOk(s)
    && ScreenOk(s)
  }
}
