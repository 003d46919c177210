/** What the rules promise: every event keeps `Consistent`, and the
    properties of clicks, moves, matches, the result screens, the tick, a new
    game and hints. */
module RuleFacts {
  import Board
  import opened Rules

  // ---------------------------------------------------------------------
  // The cards live hints hold

  lemma {:induction false} ShownAppend(q: seq<Reveal>, h: Reveal, game: nat)
    ensures Shown(q + [h], game) == Shown(q, game) + (if h.game == game then [h.first, h.second] else [])
  {
    if q == [] {
      assert q + [h] == [h];
    } else {
      assert (q + [h])[1..] == q[1..] + [h];
      ShownAppend(q[1..], h, game);
    }
  }

  lemma {:induction false} ShownStale(q: seq<Reveal>, game: nat)
    requires forall k :: 0 <= k < |q| ==> q[k].game < game
    ensures Shown(q, game) == []
  {
    if q != [] {
      ShownStale(q[1..], game);
    }
  }

  // ---------------------------------------------------------------------
  // The invariant holds from the start and is kept by every event

  lemma InitialConsistent()
    ensures Consistent(Initial())
  {
  }

  /** A new game is consistent whatever the previous game left pending: every
      callback of the previous board has become stale. */
  lemma StartConsistent(s: State, p: Board.Profile, board: seq<nat>)
    requires WellFormed(s)
    ensures Consistent(Start(s, p, board))
  {
    var r := Start(s, p, board);
    assert r.game == s.game + 1;
    forall k | 0 <= k < |r.mismatchTimers|
      ensures TimerOk(r, r.mismatchTimers[k]) && !Live(r, r.mismatchTimers[k])
    {
      assert TimerOk(s, s.mismatchTimers[k]);
    }
    forall k | 0 <= k < |r.hintTimers|
      ensures TimerOk(r, r.hintTimers[k])
    {
      assert TimerOk(s, s.hintTimers[k]);
    }
    ShownStale(r.hintTimers, r.game);
  }

  /** Ending the game keeps the invariant when the budget named by the reason
      is spent, and on a win when nothing is under comparison. */
  lemma EndGameConsistent(t: State, reason: EndReason)
    requires Consistent(t)
    requires reason == Win ==> t.flipped == []
    requires reason == Moves ==> t.totalMoves <= 0
    requires reason == Time ==> t.timeLeft <= 0
    ensures Consistent(EndGame(t, reason))
  {
  }

  lemma CheckMovesConsistent(t: State)
    requires Consistent(t)
    ensures Consistent(CheckMoves(t))
  {
    if t.totalMoves <= 0 && Unfinished(t) {
      EndGameConsistent(t, Moves);
    }
  }

  /** What an accepted click on a consistent state finds: no result screen,
      at most one card under comparison and no live mismatch callback, and
      the clicked card in no list. */
  lemma AcceptedClick(s: State, i: nat)
    requires Consistent(s) && i < |s.cards| && Accepts(s, i)
    ensures s.screen == NoScreen
    ensures i !in s.flipped && |s.flipped| <= 1 && !s.cards[i].isMatched
    ensures i !in Shown(s.hintTimers, s.game)
    ensures forall k :: 0 <= k < |s.mismatchTimers| ==> !Live(s, s.mismatchTimers[k])
  {
  }

  /** The first card of a pair turns face-up. */
  lemma FirstCardConsistent(s: State, i: nat)
    requires Consistent(s) && i < |s.cards| && Accepts(s, i) && |s.flipped| == 0
    ensures Consistent(Flip(s, i))
  {
    AcceptedClick(s, i);
    var r := Flip(s, i);
    assert r == s.(cards := SetFlipped(s.cards, i, true), flipped := [i]);
    var shown := Shown(s.hintTimers, s.game);
    assert forall j :: 0 <= j < |shown| ==> shown[j] != i;
    assert HintTimersOk(r);
  }

  // The state after an accepted second click, before the moves check.

  /** An accepted click that completes a pair. */
  ghost predicate SecondClick(s: State, i: nat) {
    Consistent(s) && i < |s.cards| && Accepts(s, i) && |s.flipped| == 1
  }

  /** Proof scaffolding, not a second definition of the rule: the match branch
      of `Rules.Flip` written out field by field (`MatchedIsFlip` proves the two
      equal) so that the invariant can be checked one field at a time. A
      completed pair that matches: both cards marked, nothing under comparison. */
  function Matched(s: State, i: nat): (r: State)
    requires WellFormed(s) && i < |s.cards| && |s.flipped| == 1
  {
    var a := s.flipped[0];
    s.(cards := SetMatched(SetMatched(SetFlipped(s.cards, i, true), a), i),
       flipped := [], matched := s.matched + 1, streak := s.streak + 1,
       totalMoves := s.totalMoves - 1)
  }

  /** Proof scaffolding: the mismatch branch of `Rules.Flip` written out field
      by field (`MismatchedIsFlip` proves the two equal). A completed pair that
      does not match: locked, callback pending. */
  function Mismatched(s: State, i: nat): (r: State)
    requires WellFormed(s) && i < |s.cards| && |s.flipped| == 1
  {
    var a := s.flipped[0];
    s.(cards := SetFlipped(s.cards, i, true), flipped := [a, i], lockBoard := true,
       totalMoves := s.totalMoves - 1,
       mismatchTimers := s.mismatchTimers + [Reveal(s.game, a, i)])
  }

  /** The cards a live hint shows are neither clicked card. */
  lemma SecondClickShown(s: State, i: nat)
    requires SecondClick(s, i)
    ensures i != s.flipped[0]
    ensures forall c :: c in Shown(s.hintTimers, s.game) ==> c != i && c != s.flipped[0]
  {
    AcceptedClick(s, i);
  }

  lemma MatchedTimers(s: State, i: nat)
    requires SecondClick(s, i)
    ensures WellFormed(Matched(s, i)) && MismatchTimersOk(Matched(s, i))
  {
  }

  lemma MatchedHints(s: State, i: nat)
    requires SecondClick(s, i)
    ensures WellFormed(Matched(s, i)) && HintTimersOk(Matched(s, i))
  {
    SecondClickShown(s, i);
  }

  lemma MatchedCards(s: State, i: nat)
    requires SecondClick(s, i)
    ensures WellFormed(Matched(s, i)) && MatchedFlipped(Matched(s, i)) && CardsOk(Matched(s, i))
  {
    SecondClickShown(s, i);
  }

  lemma MatchedConsistent(s: State, i: nat)
    requires SecondClick(s, i)
    ensures Consistent(Matched(s, i))
  {
    AcceptedClick(s, i);
    MatchedTimers(s, i);
    MatchedHints(s, i);
    MatchedCards(s, i);
  }

  lemma MismatchedTimers(s: State, i: nat)
    requires SecondClick(s, i)
    ensures WellFormed(Mismatched(s, i)) && MismatchTimersOk(Mismatched(s, i))
  {
    AcceptedClick(s, i);
  }

  lemma MismatchedFlipped(s: State, i: nat)
    requires SecondClick(s, i)
    ensures WellFormed(Mismatched(s, i)) && FlippedOk(Mismatched(s, i))
  {
    SecondClickShown(s, i);
  }

  lemma MismatchedHints(s: State, i: nat)
    requires SecondClick(s, i)
    ensures WellFormed(Mismatched(s, i)) && HintTimersOk(Mismatched(s, i))
  {
    SecondClickShown(s, i);
  }

  lemma MismatchedCards(s: State, i: nat)
    requires SecondClick(s, i)
    ensures WellFormed(Mismatched(s, i)) && MatchedFlipped(Mismatched(s, i)) && CardsOk(Mismatched(s, i))
  {
    SecondClickShown(s, i);
  }

  lemma MismatchedConsistent(s: State, i: nat)
    requires SecondClick(s, i)
    ensures Consistent(Mismatched(s, i))
  {
    AcceptedClick(s, i);
    MismatchedTimers(s, i);
    MismatchedFlipped(s, i);
    MismatchedHints(s, i);
    MismatchedCards(s, i);
  }

  /** Proof scaffolding: `Matched` after the win check of `Rules.MatchPair`
      (`MatchedIsCompare` proves the two equal). */
  function MatchedEnd(s: State, i: nat): (r: State)
    requires WellFormed(s) && i < |s.cards| && |s.flipped| == 1
  {
    var u := Matched(s, i);
    if AllMatched(u) then EndGame(u.(highscore := Max(u.highscore, u.streak)), Win) else u
  }

  lemma MatchedEndConsistent(s: State, i: nat)
    requires SecondClick(s, i)
    ensures Consistent(MatchedEnd(s, i))
  {
    var u := Matched(s, i);
    MatchedConsistent(s, i);
    if AllMatched(u) {
      EndGameConsistent(u.(highscore := Max(u.highscore, u.streak)), Win);
    }
  }

  /** The match branch of a pair, as `ComparePair` computes it. */
  lemma MatchedIsCompare(s: State, i: nat, t: State)
    requires WellFormed(s) && i < |s.cards| && |s.flipped| == 1
    requires t == s.(cards := SetFlipped(s.cards, i, true), flipped := [s.flipped[0], i], totalMoves := s.totalMoves - 1)
    requires s.cards[s.flipped[0]].id == s.cards[i].id
    ensures WellFormed(t) && ComparePair(t) == MatchedEnd(s, i)
  {
    var a := s.flipped[0];
    var u := t.(cards := SetMatched(SetMatched(t.cards, a), i), matched := t.matched + 1, streak := t.streak + 1);
    assert Matched(s, i) == u.(flipped := []);
    var v := u.(highscore := Max(u.highscore, u.streak));
    if AllMatched(u) {
      assert EndGame(v, Win).(flipped := []) == EndGame(v.(flipped := []), Win);
    }
  }

  /** The match branch of a click, as the click computes it. */
  lemma MatchedIsFlip(s: State, i: nat)
    requires WellFormed(s) && i < |s.cards| && Accepts(s, i) && |s.flipped| == 1
    requires s.cards[s.flipped[0]].id == s.cards[i].id
    ensures Flip(s, i) == CheckMoves(MatchedEnd(s, i))
  {
    var a := s.flipped[0];
    assert s.flipped + [i] == [a, i];
    var t := s.(cards := SetFlipped(s.cards, i, true), flipped := [a, i], totalMoves := s.totalMoves - 1);
    MatchedIsCompare(s, i, t);
  }

  /** The second card of a pair matches the first. */
  lemma MatchConsistent(s: State, i: nat)
    requires SecondClick(s, i)
    requires s.cards[s.flipped[0]].id == s.cards[i].id
    ensures Consistent(Flip(s, i))
  {
    MatchedEndConsistent(s, i);
    MatchedIsFlip(s, i);
    CheckMovesConsistent(MatchedEnd(s, i));
  }

  /** The mismatch branch of a click, as the click computes it. */
  lemma MismatchedIsFlip(s: State, i: nat)
    requires WellFormed(s) && i < |s.cards| && Accepts(s, i) && |s.flipped| == 1
    requires s.cards[s.flipped[0]].id != s.cards[i].id
    ensures Flip(s, i) == CheckMoves(Mismatched(s, i))
  {
    var a := s.flipped[0];
    assert s.flipped + [i] == [a, i];
    var t := s.(cards := SetFlipped(s.cards, i, true), flipped := [a, i], totalMoves := s.totalMoves - 1);
    assert ComparePair(t) == Mismatched(s, i);
  }

  /** The second card of a pair does not match the first. */
  lemma MismatchConsistent(s: State, i: nat)
    requires SecondClick(s, i)
    requires s.cards[s.flipped[0]].id != s.cards[i].id
    ensures Consistent(Flip(s, i))
  {
    MismatchedConsistent(s, i);
    MismatchedIsFlip(s, i);
    CheckMovesConsistent(Mismatched(s, i));
  }

  /** A click keeps the invariant. */
  lemma FlipConsistent(s: State, i: nat)
    requires Consistent(s) && i < |s.cards|
    ensures Consistent(Flip(s, i))
  {
    if Accepts(s, i) {
      AcceptedClick(s, i);
      if |s.flipped| == 0 {
        FirstCardConsistent(s, i);
      } else if s.cards[s.flipped[0]].id == s.cards[i].id {
        assert SecondClick(s, i);
        MatchConsistent(s, i);
      } else {
        MismatchConsistent(s, i);
      }
    }
  }

  /** The once-per-second tick keeps the invariant. */
  lemma TickConsistent(s: State)
    requires Consistent(s) && s.ticking
    ensures Consistent(Tick(s))
  {
    var t := s.(timeLeft := s.timeLeft - 1);
    assert Consistent(t);
    if t.timeLeft <= 0 && Unfinished(t) {
      EndGameConsistent(t, Time);
      assert Tick(s) == EndGame(t, Time);
    } else {
      assert Tick(s) == t;
    }
  }

  /** The oldest mismatch callback is live. */
  ghost predicate LiveMismatch(s: State) {
    Consistent(s) && |s.mismatchTimers| > 0 && Live(s, s.mismatchTimers[0])
  }

  /** A live mismatch callback is the only pending one and holds the pair
      under comparison, which no hint holds. */
  lemma LiveMismatchPair(s: State)
    requires LiveMismatch(s)
    ensures |s.mismatchTimers| == 1
    ensures var t := s.mismatchTimers[0];
      && s.flipped == [t.first, t.second] && t.first != t.second
      && forall c :: c in Shown(s.hintTimers, s.game) ==> c != t.first && c != t.second
  {
  }

  /** Proof scaffolding: the live branch of `Rules.ResolveMismatch` written out
      field by field. The state after the oldest, live mismatch callback fires. */
  function Resolved(s: State): (r: State)
    requires |s.mismatchTimers| > 0 && s.mismatchTimers[0].first < |s.cards| && s.mismatchTimers[0].second < |s.cards|
  {
    s.(cards := Unflip(s.cards, s.mismatchTimers[0]), flipped := [], lockBoard := false,
       mismatchTimers := s.mismatchTimers[1..])
  }

  lemma ResolvedTimers(s: State)
    requires LiveMismatch(s)
    ensures WellFormed(Resolved(s)) && FlippedOk(Resolved(s)) && MismatchTimersOk(Resolved(s))
  {
    LiveMismatchPair(s);
  }

  lemma ResolvedHints(s: State)
    requires LiveMismatch(s)
    ensures WellFormed(Resolved(s)) && HintTimersOk(Resolved(s))
  {
    LiveMismatchPair(s);
    var shown := Shown(s.hintTimers, s.game);
    assert forall j :: 0 <= j < |shown| ==> shown[j] in shown;
  }

  lemma ResolvedCards(s: State)
    requires LiveMismatch(s)
    ensures WellFormed(Resolved(s)) && MatchedFlipped(Resolved(s)) && CardsOk(Resolved(s)) && ScreenOk(Resolved(s))
  {
    LiveMismatchPair(s);
  }

  /** The 800 ms callback, with stale callbacks ignored, keeps the invariant:
      a live callback turns down exactly the pair under comparison. */
  lemma ResolveMismatchConsistent(s: State)
    requires Consistent(s) && |s.mismatchTimers| > 0
    ensures Consistent(ResolveMismatch(s))
  {
    if Live(s, s.mismatchTimers[0]) {
      ResolvedTimers(s);
      ResolvedHints(s);
      ResolvedCards(s);
      assert ResolveMismatch(s) == Resolved(s);
    } else {
      assert ResolveMismatch(s) == s.(mismatchTimers := s.mismatchTimers[1..]);
    }
  }

  /** Two distinct free cards a hint may show. */
  ghost predicate HintPair(s: State, first: nat, partner: nat) {
    && Consistent(s) && first < |s.cards| && partner < |s.cards| && first != partner
    && Free(s.cards[first]) && Free(s.cards[partner])
  }

  /** Proof scaffolding: the branch of `Rules.ShowHint` that shows a pair,
      written out field by field. The state after a hint shows `first` and
      `partner`. */
  function Hinted(s: State, first: nat, partner: nat): (r: State)
    requires first < |s.cards| && partner < |s.cards|
  {
    s.(cards := SetFlipped(SetFlipped(s.cards, first, true), partner, true),
       hintTimers := s.hintTimers + [Reveal(s.game, first, partner)],
       hintLimit := s.hintLimit - 1)
  }

  /** Free cards are in no list: not under comparison, not shown by a hint. */
  lemma HintedShown(s: State, first: nat, partner: nat)
    requires HintPair(s, first, partner)
    ensures first !in s.flipped && partner !in s.flipped
    ensures forall c :: c in Shown(s.hintTimers, s.game) ==> c != first && c != partner
    ensures Shown(Hinted(s, first, partner).hintTimers, s.game) == Shown(s.hintTimers, s.game) + [first, partner]
  {
    ShownAppend(s.hintTimers, Reveal(s.game, first, partner), s.game);
  }

  lemma HintedFlipped(s: State, first: nat, partner: nat)
    requires HintPair(s, first, partner)
    ensures WellFormed(Hinted(s, first, partner))
    ensures FlippedOk(Hinted(s, first, partner)) && MismatchTimersOk(Hinted(s, first, partner))
  {
    HintedShown(s, first, partner);
  }

  lemma HintedHints(s: State, first: nat, partner: nat)
    requires HintPair(s, first, partner)
    ensures HintTimersOk(Hinted(s, first, partner))
  {
    HintedShown(s, first, partner);
    var shown := Shown(s.hintTimers, s.game);
    var r := Hinted(s, first, partner);
    var shown' := shown + [first, partner];
    assert forall j :: 0 <= j < |shown| ==> shown'[j] == shown[j];
  }

  lemma HintedCards(s: State, first: nat, partner: nat)
    requires HintPair(s, first, partner)
    ensures MatchedFlipped(Hinted(s, first, partner)) && CardsOk(Hinted(s, first, partner))
  {
    HintedShown(s, first, partner);
  }

  /** Adding a hint on two distinct free cards keeps the invariant. */
  lemma HintedConsistent(s: State, first: nat, partner: nat)
    requires HintPair(s, first, partner)
    ensures Consistent(Hinted(s, first, partner))
  {
    HintedFlipped(s, first, partner);
    HintedHints(s, first, partner);
    HintedCards(s, first, partner);
  }

  /** A hint request keeps the invariant: the two cards it shows were free. */
  lemma ShowHintConsistent(s: State)
    requires Consistent(s)
    ensures Consistent(ShowHint(s))
  {
    if ShowHint(s) != s {
      var un := FreeCards(s.cards);
      var first := un[0];
      var p := FindPartner(s.cards, un, first, 0).value;
      assert ShowHint(s) == Hinted(s, first, un[p]);
      HintedConsistent(s, first, un[p]);
    }
  }

  /** The oldest hint callback is live. */
  ghost predicate LiveHint(s: State) {
    Consistent(s) && |s.hintTimers| > 0 && Live(s, s.hintTimers[0])
  }

  /** The two cards of the oldest live hint are held by no other hint and are
      face-up, unmatched and not under comparison. */
  lemma ExpireShown(s: State)
    requires LiveHint(s)
    ensures var t := s.hintTimers[0];
      var rest := Shown(s.hintTimers[1..], s.game);
      && HintCardOk(s, t.first) && HintCardOk(s, t.second) && t.first != t.second
      && Distinct(rest)
      && (forall c :: c in rest ==> c != t.first && c != t.second && HintCardOk(s, c))
      && (forall c :: c in Shown(s.hintTimers, s.game) ==> c in rest || c == t.first || c == t.second)
  {
    var t := s.hintTimers[0];
    var shown := Shown(s.hintTimers, s.game);
    var rest := Shown(s.hintTimers[1..], s.game);
    assert shown == [t.first, t.second] + rest;
    assert shown[0] == t.first && shown[1] == t.second;
    assert forall j :: 0 <= j < |rest| ==> rest[j] == shown[j + 2];
    forall c | c in rest
      ensures c != t.first && c != t.second && HintCardOk(s, c)
    {
      var j :| 0 <= j < |rest| && rest[j] == c;
      assert shown[j + 2] == c;
    }
  }

  /** Proof scaffolding: the live branch of `Rules.HintExpire` written out
      field by field. The state after the oldest, live hint callback fires. */
  function Expired(s: State): (r: State)
    requires |s.hintTimers| > 0 && s.hintTimers[0].first < |s.cards| && s.hintTimers[0].second < |s.cards|
  {
    s.(cards := Unflip(s.cards, s.hintTimers[0]), hintTimers := s.hintTimers[1..])
  }

  lemma ExpiredFlipped(s: State)
    requires LiveHint(s)
    ensures WellFormed(Expired(s)) && FlippedOk(Expired(s)) && MismatchTimersOk(Expired(s))
  {
    ExpireShown(s);
  }

  lemma ExpiredHints(s: State)
    requires LiveHint(s)
    ensures WellFormed(Expired(s)) && HintTimersOk(Expired(s))
  {
    ExpireShown(s);
    var rest := Shown(s.hintTimers[1..], s.game);
    assert forall j :: 0 <= j < |rest| ==> rest[j] in rest;
  }

  lemma ExpiredCards(s: State)
    requires LiveHint(s)
    ensures WellFormed(Expired(s)) && MatchedFlipped(Expired(s)) && CardsOk(Expired(s))
  {
    ExpireShown(s);
  }

  /** The 1 s hint callback keeps the invariant: the cards it turns down are
      held by no other callback and are not under comparison. */
  lemma HintExpireConsistent(s: State)
    requires Consistent(s) && |s.hintTimers| > 0
    ensures Consistent(HintExpire(s))
  {
    var q := s.hintTimers;
    if Live(s, q[0]) {
      ExpiredFlipped(s);
      ExpiredHints(s);
      ExpiredCards(s);
      assert HintExpire(s) == Expired(s);
    } else {
      assert Shown(q, s.game) == Shown(q[1..], s.game);
      assert HintExpire(s) == s.(hintTimers := q[1..]);
    }
  }
}
