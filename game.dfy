/** The memory game of script.js:34-40, 67-68 and 78-205 as a session
    object. Cards are identified by their position on the board; a card is
    the flower it shows plus the `flipped` mark and the `disabled` flag of
    its button. The delayed callbacks (mismatch resolution after 700 ms) are
    methods the caller invokes; the random numbers are inputs. */
module Game {
  import opened Wrappers
  import Shuffle
  import Deck
  import Messages
  import Flowers

  datatype Card = Card(flower: nat, flipped: bool, disabled: bool)

  /** What a tap did: nothing, picked a first card, completed a matching pair
      (the last one when `victory` holds) or completed a mismatching pair. */
  datatype TapOutcome = Ignored | FirstPicked | Matched(victory: bool) | Mismatched

  /** The number of disabled (matched) cards. */
  function CountDisabled(cards: seq<Card>): (n: nat)
    ensures n <= |cards|
  {
    if cards == [] then 0
    else (if cards[0].disabled then 1 else 0) + CountDisabled(cards[1..])
  }

  /** Replacing one card changes the count by the change in that card alone. */
  lemma {:induction false} CountDisabledUpdate(cards: seq<Card>, i: nat, c: Card)
    requires i < |cards|
    ensures CountDisabled(cards[i := c])
         == CountDisabled(cards) - (if cards[i].disabled then 1 else 0) + (if c.disabled then 1 else 0)
  {
    if i == 0 {
      assert cards[i := c][1..] == cards[1..];
    } else {
      assert cards[i := c][1..] == cards[1..][i - 1 := c];
      CountDisabledUpdate(cards[1..], i - 1, c);
    }
  }

  /** A board without disabled cards counts none. */
  lemma {:induction false} CountDisabledNone(cards: seq<Card>)
    requires forall i :: 0 <= i < |cards| ==> !cards[i].disabled
    ensures CountDisabled(cards) == 0
  {
    if cards != [] {
      assert forall i :: 0 <= i < |cards[1..]| ==> cards[1..][i] == cards[i + 1];
      CountDisabledNone(cards[1..]);
    }
  }

  /** When every card counts as disabled, every card is disabled. */
  lemma {:induction false} CountDisabledAll(cards: seq<Card>)
    requires CountDisabled(cards) == |cards|
    ensures forall i :: 0 <= i < |cards| ==> cards[i].disabled
  {
    if cards != [] {
      CountDisabledAll(cards[1..]);
      assert forall i :: 1 <= i < |cards| ==> cards[i] == cards[1..][i - 1];
    }
  }

  /** The board part of the session invariant, over the values of the
      session's fields: at least one pair and no more pairs than flowers; a board of face-down or face-up
      cards showing the dealt flowers; a pending first card is not yet
      matched; a second pending card exists only while the board is locked,
      and then shows a different flower from the first; exactly the matched
      and the pending cards are face up; the matched cards are twice the
      match count. */
  ghost predicate BoardInv(pairs: nat, deck: seq<nat>, board: seq<Card>, first: Option<nat>,
                           second: Option<nat>, locked: bool, matches: nat)
  {
    && 0 < pairs <= Flowers.FLOWER_COUNT
    && |board| == |deck| == 2 * pairs
    && (forall i :: 0 <= i < |board| ==> board[i].flower == deck[i])
    && (first.Some? ==> first.value < |board| && !board[first.value].disabled)
    && (second.Some? ==>
          && first.Some?
          && second.value < |board|
          && second.value != first.value
          && !board[second.value].disabled
          && deck[first.value] != deck[second.value])
    && (locked <==> second.Some?)
    && (forall i :: 0 <= i < |board| ==>
          (board[i].flipped <==> board[i].disabled || first == Some(i) || second == Some(i)))
    && 2 * matches == CountDisabled(board)
  }

  /** A freshly dealt board of face-down cards, with nothing pending and no
      match, satisfies the invariant. */
  lemma {:induction false} FreshBoardInv(pairs: nat, deck: seq<nat>, board: seq<Card>)
    requires 0 < pairs <= Flowers.FLOWER_COUNT
    requires |deck| == 2 * pairs && |board| == |deck|
    requires forall i :: 0 <= i < |board| ==> board[i] == Card(deck[i], false, false)
    ensures BoardInv(pairs, deck, board, None, None, false, 0)
  {
    CountDisabledNone(board);
  }

  /** Once all pairs are matched, every card is disabled; there are never
      more matches than pairs. */
  lemma {:induction false} AllMatchedAllDisabled(pairs: nat, deck: seq<nat>, board: seq<Card>, first: Option<nat>,
                                                 second: Option<nat>, locked: bool, matches: nat)
    requires BoardInv(pairs, deck, board, first, second, locked, matches)
    ensures matches <= pairs
    ensures matches == pairs ==> forall i :: 0 <= i < |board| ==> board[i].disabled
  {
    if matches == pairs {
      CountDisabledAll(board);
    }
  }

  /** Turning up an unmatched card as the first of a pair keeps the
      invariant; the card was face down. */
  lemma {:induction false} PickFirstKeepsInv(pairs: nat, deck: seq<nat>, board: seq<Card>, matches: nat, idx: nat)
    requires BoardInv(pairs, deck, board, None, None, false, matches)
    requires idx < |board| && !board[idx].disabled
    ensures board[idx] == Card(deck[idx], false, false)
    ensures BoardInv(pairs, deck, board[idx := Card(deck[idx], true, false)], Some(idx), None, false, matches)
  {
    CountDisabledUpdate(board, idx, Card(deck[idx], true, false));
  }

  /** Turning up a second, unmatched card of a different flower keeps the
      invariant with both cards pending and the board locked. */
  lemma {:induction false} MismatchKeepsInv(pairs: nat, deck: seq<nat>, board: seq<Card>, matches: nat, f: nat, idx: nat)
    requires BoardInv(pairs, deck, board, Some(f), None, false, matches)
    requires idx < |board| && idx != f && !board[idx].disabled && deck[f] != deck[idx]
    ensures board[idx] == Card(deck[idx], false, false)
    ensures BoardInv(pairs, deck, board[idx := Card(deck[idx], true, false)], Some(f), Some(idx), true, matches)
  {
    CountDisabledUpdate(board, idx, Card(deck[idx], true, false));
  }

  /** Turning up a second, unmatched card of the same flower and disabling
      both keeps the invariant with one more match and nothing pending. */
  lemma {:induction false} MatchKeepsInv(pairs: nat, deck: seq<nat>, board: seq<Card>, matches: nat, f: nat, idx: nat)
    requires BoardInv(pairs, deck, board, Some(f), None, false, matches)
    requires idx < |board| && idx != f && !board[idx].disabled && deck[f] == deck[idx]
    ensures board[f] == Card(deck[f], true, false) && board[idx] == Card(deck[idx], false, false)
    ensures BoardInv(pairs, deck, board[f := Card(deck[f], true, true)][idx := Card(deck[idx], true, true)],
                     None, None, false, matches + 1)
  {
    var b1 := board[f := Card(deck[f], true, true)];
    CountDisabledUpdate(board, f, Card(deck[f], true, true));
    CountDisabledUpdate(b1, idx, Card(deck[idx], true, true));
  }

  /** Turning both pending cards of a mismatch face down keeps the
      invariant with nothing pending and the board unlocked. */
  lemma {:induction false} UnflipKeepsInv(pairs: nat, deck: seq<nat>, board: seq<Card>, matches: nat, f: nat, s: nat)
    requires BoardInv(pairs, deck, board, Some(f), Some(s), true, matches)
    ensures board[f] == Card(deck[f], true, false) && board[s] == Card(deck[s], true, false)
    ensures BoardInv(pairs, deck, board[f := Card(deck[f], false, false)][s := Card(deck[s], false, false)],
                     None, None, false, matches)
  {
    var b1 := board[f := Card(deck[f], false, false)];
    CountDisabledUpdate(board, f, Card(deck[f], false, false));
    CountDisabledUpdate(b1, s, Card(deck[s], false, false));
  }

  /** script.js:96-114: one face-down, enabled card per dealt flower, in
      deck order. */
  method FaceDownBoard(deck: seq<nat>) returns (cards: seq<Card>)
    ensures |cards| == |deck|
    ensures forall i :: 0 <= i < |deck| ==> cards[i] == Card(deck[i], false, false)
  {
    cards := [];
    for idx := 0 to |deck|
      invariant |cards| == idx
      invariant forall i :: 0 <= i < idx ==> cards[i] == Card(deck[i], false, false)
    {
      cards := cards + [Card(deck[idx], false, false)];
    }
  }

  /** script.js:81-114: deal a shuffled deck for `pairs` pairs and lay it
      out face down; the result satisfies the board invariant with nothing
      pending and no match. */
  method DealBoard(pairs: nat, js: seq<nat>) returns (deck: seq<nat>, cards: seq<Card>)
    requires 0 < pairs <= Flowers.FLOWER_COUNT && Shuffle.ValidDraws(js, 2 * pairs)
    ensures deck == Shuffle.Shuffled(Deck.Paired(pairs), js, 2 * pairs - 1)
    ensures |cards| == |deck| && forall i :: 0 <= i < |deck| ==> cards[i] == Card(deck[i], false, false)
    ensures BoardInv(pairs, deck, cards, None, None, false, 0)
  {
    deck := Deck.DealDeck(pairs, js);
    cards := FaceDownBoard(deck);
    FreshBoardInv(pairs, deck, cards);
  }

  class Session {
    var pairs: nat
    var board: seq<Card>
    var firstCard: Option<nat>
    var secondCard: Option<nat>
    var lockBoard: bool
    var moves: nat
    var matches: nat
    var alertsShown: nat
    var shownForMoves: set<nat>
    /** The flowers dealt in this game, in board order. */
    ghost var deck: seq<nat>
    /** How many times this game has scheduled its victory announcement. */
    ghost var victories: nat

    /** The session invariant: the board invariant over the fields, the
        message tally within its bounds (at most two messages, each for its
        own evaluated move count, and only counts already reached), and the
        victory scheduled once exactly when all pairs are matched. */
    ghost predicate Valid()
      reads this
    {
      && BoardInv(pairs, deck, board, firstCard, secondCard, lockBoard, matches)
      && alertsShown <= Messages.MAX_ALERTS_PER_GAME
      && alertsShown <= |shownForMoves|
      && (forall m :: m in shownForMoves ==> 1 <= m <= moves)
      && victories == (if matches == pairs then 1 else 0)
    }

    /** The state right after dealing `pairs` pairs with shuffle draws
        `js`: a fresh shuffled board, every card face down and enabled, no
        pending card, counters and message tally at zero. */
    ghost predicate FreshDeal(js: seq<nat>)
      requires Shuffle.ValidDraws(js, 2 * pairs)
      reads this
    {
      && deck == Shuffle.Shuffled(Deck.Paired(pairs), js, 2 * pairs - 1)
      && |board| == |deck|
      && (forall i :: 0 <= i < |board| ==> board[i] == Card(deck[i], false, false))
      && firstCard == None && secondCard == None && !lockBoard
      && moves == 0 && matches == 0
      && alertsShown == 0 && shownForMoves == {}
      && victories == 0
    }

    /** The page start-up (script.js:32-40, 67-68 and the call at 320). */
    constructor (innerWidth: int, touch: bool, js: seq<nat>)
      requires Shuffle.ValidDraws(js, 2 * Deck.PairsFor(innerWidth, touch))
      ensures Valid() && pairs == Deck.PairsFor(innerWidth, touch) && FreshDeal(js)
    {
      pairs := Deck.PairsFor(innerWidth, touch);
      board := [];
      firstCard, secondCard, lockBoard := None, None, false;
      moves, matches := 0, 0;
      alertsShown, shownForMoves := 0, {};
      deck, victories := [], 0;
      new;
      InitGame(innerWidth, touch, js);
    }

    /** script.js:78-115: choose the pair count from the viewport, then deal
        and reset. */
    method InitGame(innerWidth: int, touch: bool, js: seq<nat>)
      requires Shuffle.ValidDraws(js, 2 * Deck.PairsFor(innerWidth, touch))
      modifies this
      ensures Valid() && pairs == Deck.PairsFor(innerWidth, touch) && FreshDeal(js)
    {
      Reset(Deck.PairsFor(innerWidth, touch), js);
    }

    /** script.js:80-115: deal a shuffled board of `p` pairs face down and
        reset the whole session. */
    method Reset(p: nat, js: seq<nat>)
      requires 0 < p <= Flowers.FLOWER_COUNT && Shuffle.ValidDraws(js, 2 * p)
      modifies this
      ensures Valid() && pairs == p && FreshDeal(js)
    {
      var dealt, cards := DealBoard(p, js);
      pairs, board, deck := p, cards, dealt;
      firstCard, secondCard, lockBoard := None, None, false;
      moves, matches, victories := 0, 0, 0;
      alertsShown, shownForMoves := 0, {};
    }

    /** script.js:117-156: unless two messages were already shown or this
        move count was already evaluated, mark the count as evaluated and,
        when the draw falls below the chance, show message `pick`. */
    method MaybeShowRandomMessage(movesCount: nat, draw: real, pick: nat) returns (message: Option<string>)
      requires 0.0 <= draw < 1.0 && pick < |Messages.MESSAGE_POOL|
      modifies this`alertsShown, this`shownForMoves
      ensures Messages.RuleStep(old(alertsShown), old(shownForMoves), movesCount, draw,
                                alertsShown, shownForMoves, message.Some?)
      ensures message.Some? ==> message.value == Messages.MESSAGE_POOL[pick]
    {
      if alertsShown >= Messages.MAX_ALERTS_PER_GAME {
        return None;
      }
      if movesCount in shownForMoves {
        return None;
      }
      var chance := Messages.Chance(movesCount);
      if draw * 100.0 < chance as real {
        message := Some(Messages.MESSAGE_POOL[pick]);
        alertsShown := alertsShown + 1;
        shownForMoves := shownForMoves + {movesCount};
      } else {
        message := None;
        shownForMoves := shownForMoves + {movesCount};
      }
    }

    /** script.js:158-205: a tap on card `idx`. Ignored while the board is
        locked, on the pending first card and on a matched card. Otherwise
        the card turns face up; a first tap only records it; a second tap
        counts a move, runs the message rule for the new move count and
        either matches the pair (both disabled, one more match, victory when
        all pairs are matched) or locks the board until `ResolveMismatch`. */
    method OnCardClick(idx: nat, draw: real, pick: nat) returns (outcome: TapOutcome, message: Option<string>)
      requires Valid() && idx < |board|
      requires 0.0 <= draw < 1.0 && pick < |Messages.MESSAGE_POOL|
      modifies this`board, this`firstCard, this`secondCard, this`lockBoard, this`moves,
               this`matches, this`victories, this`alertsShown, this`shownForMoves
      ensures Valid() && pairs == old(pairs) && deck == old(deck)
      ensures outcome == Ignored <==> old(lockBoard) || old(firstCard) == Some(idx) || old(board[idx].disabled)
      ensures outcome == Ignored ==> message == None && unchanged(this)
      ensures outcome == FirstPicked <==> outcome != Ignored && old(firstCard) == None
      ensures outcome == FirstPicked ==>
        && board == old(board)[idx := Card(deck[idx], true, false)]
        && firstCard == Some(idx) && secondCard == None && !lockBoard
        && moves == old(moves) && matches == old(matches)
        && alertsShown == old(alertsShown) && shownForMoves == old(shownForMoves)
        && victories == old(victories) && message == None
      ensures outcome.Matched? || outcome.Mismatched? ==>
        && old(firstCard).Some?
        && moves == old(moves) + 1
        && Messages.RuleStep(old(alertsShown), old(shownForMoves), moves, draw,
                             alertsShown, shownForMoves, message.Some?)
        && (message.Some? ==> message.value == Messages.MESSAGE_POOL[pick])
      ensures outcome.Matched? <==>
        outcome != Ignored && old(firstCard).Some? && deck[old(firstCard).value] == deck[idx]
      ensures outcome.Matched? ==>
        var f := old(firstCard).value;
        && board == old(board)[f := Card(deck[f], true, true)][idx := Card(deck[idx], true, true)]
        && firstCard == None && secondCard == None && !lockBoard
        && matches == old(matches) + 1
        && (outcome.victory <==> matches == pairs)
        && victories == old(victories) + (if outcome.victory then 1 else 0)
      ensures outcome.Mismatched? ==>
        && board == old(board)[idx := Card(deck[idx], true, false)]
        && firstCard == old(firstCard) && secondCard == Some(idx) && lockBoard
        && matches == old(matches) && victories == old(victories)
      ensures old(matches) == pairs ==> outcome == Ignored
    {
      AllMatchedAllDisabled(pairs, deck, board, firstCard, secondCard, lockBoard, matches);
      if lockBoard || firstCard == Some(idx) || board[idx].disabled {
        return Ignored, None;
      }
      if firstCard == None {
        TurnFirst(idx);
        return FirstPicked, None;
      }
      outcome, message := TurnSecond(idx, draw, pick);
    }

    /** script.js:169-204: the second card of a pair: count the move, run
        the message rule, then match the pair or lock the board. */
    method TurnSecond(idx: nat, draw: real, pick: nat) returns (outcome: TapOutcome, message: Option<string>)
      requires Valid() && idx < |board| && firstCard.Some? && !lockBoard
      requires firstCard.value != idx && !board[idx].disabled
      requires 0.0 <= draw < 1.0 && pick < |Messages.MESSAGE_POOL|
      modifies this`board, this`firstCard, this`secondCard, this`lockBoard, this`moves,
               this`matches, this`victories, this`alertsShown, this`shownForMoves
      ensures Valid()
      ensures outcome.Matched? || outcome.Mismatched?
      ensures moves == old(moves) + 1
      ensures Messages.RuleStep(old(alertsShown), old(shownForMoves), moves, draw,
                                alertsShown, shownForMoves, message.Some?)
      ensures message.Some? ==> message.value == Messages.MESSAGE_POOL[pick]
      ensures outcome.Matched? <==> deck[old(firstCard).value] == deck[idx]
      ensures outcome.Matched? ==>
        var f := old(firstCard).value;
        && board == old(board)[f := Card(deck[f], true, true)][idx := Card(deck[idx], true, true)]
        && firstCard == None && secondCard == None && !lockBoard
        && matches == old(matches) + 1
        && (outcome.victory <==> matches == pairs)
        && victories == old(victories) + (if outcome.victory then 1 else 0)
      ensures outcome.Mismatched? ==>
        && board == old(board)[idx := Card(deck[idx], true, false)]
        && firstCard == old(firstCard) && secondCard == Some(idx) && lockBoard
        && matches == old(matches) && victories == old(victories)
    {
      message := CountMove(draw, pick);
      if board[firstCard.value].flower == board[idx].flower {
        var won := MatchPair(idx);
        outcome := Matched(won);
      } else {
        LockMismatch(idx);
        outcome := Mismatched;
      }
    }

    /** script.js:163-167: the first card of a pair turns face up and is
        remembered. */
    method TurnFirst(idx: nat)
      requires Valid() && idx < |board| && firstCard == None && !board[idx].disabled
      modifies this`board, this`firstCard
      ensures Valid()
      ensures board == old(board)[idx := Card(deck[idx], true, false)] && firstCard == Some(idx)
    {
      PickFirstKeepsInv(pairs, deck, board, matches, idx);
      board, firstCard := board[idx := Card(board[idx].flower, true, false)], Some(idx);
    }

    /** script.js:169-173: a second tap counts one more move and runs the
        message rule for the new move count. */
    method CountMove(draw: real, pick: nat) returns (message: Option<string>)
      requires Valid()
      requires 0.0 <= draw < 1.0 && pick < |Messages.MESSAGE_POOL|
      modifies this`moves, this`alertsShown, this`shownForMoves
      ensures Valid() && moves == old(moves) + 1
      ensures Messages.RuleStep(old(alertsShown), old(shownForMoves), moves, draw,
                                alertsShown, shownForMoves, message.Some?)
      ensures message.Some? ==> message.value == Messages.MESSAGE_POOL[pick]
    {
      moves := moves + 1;
      message := MaybeShowRandomMessage(moves, draw, pick);
      Messages.RuleStepKeepsTally(old(alertsShown), old(shownForMoves), moves, draw,
                                  alertsShown, shownForMoves, message.Some?);
    }

    /** script.js:178-194: the second card shows the first card's flower;
        both are disabled, nothing is pending and the match count grows;
        the victory is scheduled when it reaches the pair count. */
    method MatchPair(idx: nat) returns (won: bool)
      requires Valid() && idx < |board| && firstCard.Some? && secondCard == None
      requires firstCard.value != idx && !board[idx].disabled
      requires deck[firstCard.value] == deck[idx]
      modifies this`board, this`firstCard, this`matches, this`victories
      ensures Valid()
      ensures
        var f := old(firstCard).value;
        board == old(board)[f := Card(deck[f], true, true)][idx := Card(deck[idx], true, true)]
      ensures firstCard == None && matches == old(matches) + 1
      ensures won <==> matches == pairs
      ensures victories == old(victories) + (if won then 1 else 0)
    {
      var f := firstCard.value;
      MatchKeepsInv(pairs, deck, board, matches, f, idx);
      won := matches + 1 == pairs;
      board, firstCard, matches, victories :=
        board[f := Card(board[f].flower, true, true)][idx := Card(board[idx].flower, true, true)],
        None, matches + 1, victories + (if won then 1 else 0);
    }

    /** script.js:195-196: the second card shows a different flower; it
        stays face up as the second pending card and the board locks. */
    method LockMismatch(idx: nat)
      requires Valid() && idx < |board| && firstCard.Some? && secondCard == None && !lockBoard
      requires firstCard.value != idx && !board[idx].disabled
      requires deck[firstCard.value] != deck[idx]
      modifies this`board, this`secondCard, this`lockBoard
      ensures Valid()
      ensures board == old(board)[idx := Card(deck[idx], true, false)]
      ensures secondCard == Some(idx) && lockBoard
    {
      MismatchKeepsInv(pairs, deck, board, matches, firstCard.value, idx);
      board, secondCard, lockBoard := board[idx := Card(board[idx].flower, true, false)], Some(idx), true;
    }

    /** script.js:197-203, the body of the 700 ms timer after a mismatch:
        both pending cards turn face down, the selection is cleared and the
        board is unlocked. */
    method ResolveMismatch()
      requires Valid() && firstCard.Some? && secondCard.Some?
      modifies this
      ensures Valid()
      ensures pairs == old(pairs) && deck == old(deck) && moves == old(moves) && matches == old(matches)
      ensures
        var f, s := old(firstCard).value, old(secondCard).value;
        board == old(board)[f := Card(deck[f], false, false)][s := Card(deck[s], false, false)]
      ensures firstCard == None && secondCard == None && !lockBoard
      ensures alertsShown == old(alertsShown) && shownForMoves == old(shownForMoves)
      ensures victories == old(victories)
    {
      var f, s := firstCard.value, secondCard.value;
      UnflipKeepsInv(pairs, deck, board, matches, f, s);
      board := board[f := Card(board[f].flower, false, false)][s := Card(board[s].flower, false, false)];
      firstCard, secondCard, lockBoard := None, None, false;
    }
  }
}
