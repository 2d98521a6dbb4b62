/**
 * Dealing one round from the front of a shoe.
 *
 * The player gets cards 0 and 2, the dealer cards 1 and 3, and a cursor
 * stands on index 3, the last card dealt. If either two-card hand is worth
 * more than 7 nobody draws. Otherwise the player draws the cards after the
 * cursor while the player's hand is worth less than 6, then the dealer does
 * the same with the cards that follow. Finally the cards before the cursor
 * are removed from the front of the shoe: that is one card fewer than were
 * dealt, so the last card dealt stays on top of the shoe.
 */
module Dealer {
  import opened Cards
  import opened ShoeBuilder

  /**
   * What a round deals from a shoe: the two hands and the final cursor,
   * which is both the index of the last card dealt and the number of
   * cards removed from the front of the shoe.
   */
  datatype Dealt = Dealt(player: Hand, dealer: Hand, cursor: nat)

  /** True when `hand` is known to be worth at least 6. */
  predicate Stands(hand: Hand) {
    var v := HandValue(hand);
    v.Success? && v.value >= 6
  }

  /**
   * One side's drawing rule: with the cursor on `idx`, keep taking the card
   * after the cursor while `hand` is worth less than 6. Returns the final
   * hand and cursor, or the panic of scoring a bad rank or of indexing past
   * the end of the shoe.
   */
  function Draw(hand: Hand, cards: seq<Card>, idx: nat): (r: Result<(Hand, nat)>)
    requires idx < |cards|
    ensures r.Success? ==>
      && idx <= r.value.1 < |cards|
      && r.value.0 == hand + cards[idx + 1 .. r.value.1 + 1]
    decreases |cards| - idx
  {
    match HandValue(hand)
    case Failure(e) => Failure(e)
    case Success(v) =>
      if v >= 6 then Success((hand, idx))
      else if idx + 1 >= |cards| then Failure(IndexOutOfBounds)
      else
        var r := Draw(hand + [cards[idx + 1]], cards, idx + 1);
        assert r.Success? ==>
          hand + cards[idx + 1 .. r.value.1 + 1] == hand + [cards[idx + 1]] + cards[idx + 2 .. r.value.1 + 1];
        r
  }

  /**
   * How the drawing rule ends: a hand it returns is worth at least 6; it
   * runs off the end of the shoe only when the hand together with every
   * remaining card is still worth less than 6; and it fails on a rank only
   * when an invalid card is among them.
   */
  lemma {:induction false} DrawEnds(hand: Hand, cards: seq<Card>, idx: nat)
    requires idx < |cards|
    ensures Draw(hand, cards, idx).Success? ==> Stands(Draw(hand, cards, idx).value.0)
    ensures Draw(hand, cards, idx) == Failure(IndexOutOfBounds) ==>
      var rest := HandValue(hand + cards[idx + 1 ..]);
      rest.Success? && rest.value < 6
    ensures Draw(hand, cards, idx) == Failure(RankOutOfRange) ==> !AllValid(hand + cards[idx + 1 ..])
    decreases |cards| - idx
  {
    if HandValue(hand).Success? && HandValue(hand).value < 6 {
      if idx + 1 >= |cards| {
        assert hand + cards[idx + 1 ..] == hand;
      } else {
        DrawEnds(hand + [cards[idx + 1]], cards, idx + 1);
        assert hand + cards[idx + 1 ..] == hand + [cards[idx + 1]] + cards[idx + 2 ..];
      }
    }
  }

  /** The hand after drawing every card from `idx + 1` up to index `k`. */
  function DrawnUpTo(hand: Hand, cards: seq<Card>, idx: nat, k: nat): Hand
    requires idx <= k < |cards|
  {
    hand + cards[idx + 1 .. k + 1]
  }

  /** Drawing up to index `k` is drawing the next card and then the rest. */
  lemma DrawnUpToStep(hand: Hand, cards: seq<Card>, idx: nat, k: nat)
    requires idx < k < |cards|
    ensures DrawnUpTo(hand, cards, idx, k) == DrawnUpTo(hand + [cards[idx + 1]], cards, idx + 1, k)
  {
    assert cards[idx + 1 .. k + 1] == [cards[idx + 1]] + cards[idx + 2 .. k + 1];
  }

  /**
   * The drawing rule stops at the first value of 6 or more: before every
   * card it takes, the hand holding the cards taken so far is worth less
   * than 6.
   */
  lemma {:induction false} DrawStopsAtFirstStand(hand: Hand, cards: seq<Card>, idx: nat)
    requires idx < |cards|
    requires Draw(hand, cards, idx).Success?
    ensures forall k :: idx <= k < Draw(hand, cards, idx).value.1 ==>
      !Stands(DrawnUpTo(hand, cards, idx, k)) && HandValue(DrawnUpTo(hand, cards, idx, k)).Success?
    decreases |cards| - idx
  {
    var j := Draw(hand, cards, idx).value.1;
    if j > idx {
      var next := hand + [cards[idx + 1]];
      assert HandValue(hand).Success? && HandValue(hand).value < 6;
      assert Draw(hand, cards, idx) == Draw(next, cards, idx + 1);
      DrawStopsAtFirstStand(next, cards, idx + 1);
      forall k | idx <= k < j
        ensures !Stands(DrawnUpTo(hand, cards, idx, k)) && HandValue(DrawnUpTo(hand, cards, idx, k)).Success?
      {
        if k == idx {
          assert DrawnUpTo(hand, cards, idx, k) == hand;
        } else {
          DrawnUpToStep(hand, cards, idx, k);
        }
      }
    }
  }

  /**
   * The drawing rule runs off the end of the shoe only when it never
   * stood: every hand on the way, up to the one holding the last card of
   * the shoe, has a valid value below 6.
   */
  lemma {:induction false} DrawRunsOffNeverStood(hand: Hand, cards: seq<Card>, idx: nat)
    requires idx < |cards|
    requires Draw(hand, cards, idx) == Failure(IndexOutOfBounds)
    ensures forall k :: idx <= k < |cards| ==>
      HandValue(DrawnUpTo(hand, cards, idx, k)).Success? && !Stands(DrawnUpTo(hand, cards, idx, k))
    decreases |cards| - idx
  {
    assert HandValue(hand).Success? && HandValue(hand).value < 6;
    if idx + 1 < |cards| {
      var next := hand + [cards[idx + 1]];
      assert Draw(hand, cards, idx) == Draw(next, cards, idx + 1);
      DrawRunsOffNeverStood(next, cards, idx + 1);
    }
    forall k | idx <= k < |cards|
      ensures HandValue(DrawnUpTo(hand, cards, idx, k)).Success? && !Stands(DrawnUpTo(hand, cards, idx, k))
    {
      if k == idx {
        assert DrawnUpTo(hand, cards, idx, k) == hand;
      } else {
        DrawnUpToStep(hand, cards, idx, k);
      }
    }
  }

  /**
   * The natural check of a round: the player's two cards are worth more
   * than 7 or, when they are not, the dealer's are. The player's hand is
   * scored first, and the dealer's only when the player's is not above 7.
   */
  predicate Natural(cards: seq<Card>)
    requires |cards| >= 4
  {
    var pv := HandValue([cards[0], cards[2]]);
    var dv := HandValue([cards[1], cards[3]]);
    pv.Success? && (pv.value > 7 || (dv.Success? && dv.value > 7))
  }

  /**
   * One round dealt from the front of `cards`. It needs four cards, and a
   * successful round leaves the cursor on a card of the shoe at index 3 or
   * later, so every round removes at least three cards.
   */
  function Deal(cards: seq<Card>): (r: Result<Dealt>)
    ensures |cards| < 4 ==> r == Failure(IndexOutOfBounds)
    ensures r.Success? ==> 3 <= r.value.cursor < |cards|
  {
    if |cards| < 4 then Failure(IndexOutOfBounds)
    else
      var player, dealer := [cards[0], cards[2]], [cards[1], cards[3]];
      match HandValue(player)
      case Failure(e) => Failure(e)
      case Success(pv) =>
        if pv > 7 then Success(Dealt(player, dealer, 3))
        else
          match HandValue(dealer)
          case Failure(e) => Failure(e)
          case Success(dv) =>
            if dv > 7 then Success(Dealt(player, dealer, 3))
            else
              match Draw(player, cards, 3)
              case Failure(e) => Failure(e)
              case Success((p, i)) =>
                match Draw(dealer, cards, i)
                case Failure(e) => Failure(e)
                case Success((d, j)) => Success(Dealt(p, d, j))
  }

  /**
   * On a shoe of four or more cards a round runs off the end of the shoe
   * only while drawing: there is no natural, and the player's hand, or the
   * dealer's hand after the player has drawn, never stood: with each card
   * after the cursor added in turn, up to the last card of the shoe, it is
   * still worth less than 6.
   */
  lemma DealRunsOffOnlyWhileDrawing(cards: seq<Card>)
    requires |cards| >= 4 && Deal(cards) == Failure(IndexOutOfBounds)
    ensures !Natural(cards)
    ensures
      var p0, d0 := [cards[0], cards[2]], [cards[1], cards[3]];
      var pd := Draw(p0, cards, 3);
      || (&& pd == Failure(IndexOutOfBounds)
          && HandValue(p0 + cards[4..]).Success? && !Stands(p0 + cards[4..])
          && forall k :: 3 <= k < |cards| ==>
               HandValue(DrawnUpTo(p0, cards, 3, k)).Success? && !Stands(DrawnUpTo(p0, cards, 3, k)))
      || (&& pd.Success?
          && HandValue(d0 + cards[pd.value.1 + 1 ..]).Success? && !Stands(d0 + cards[pd.value.1 + 1 ..])
          && forall k :: pd.value.1 <= k < |cards| ==>
               HandValue(DrawnUpTo(d0, cards, pd.value.1, k)).Success? && !Stands(DrawnUpTo(d0, cards, pd.value.1, k)))
  {
    var p0, d0 := [cards[0], cards[2]], [cards[1], cards[3]];
    DrawEnds(p0, cards, 3);
    var pd := Draw(p0, cards, 3);
    if pd.Success? {
      DrawEnds(d0, cards, pd.value.1);
      DrawRunsOffNeverStood(d0, cards, pd.value.1);
    } else {
      DrawRunsOffNeverStood(p0, cards, 3);
    }
  }

  /**
   * The shape of a round: the player holds cards 0 and 2 and then its
   * draws, the dealer cards 1 and 3 and then its draws; the cards dealt are
   * exactly the first `cursor + 1` of the shoe, in this order, and without a
   * natural both hands end up worth at least 6.
   */
  lemma DealShape(cards: seq<Card>)
    requires Deal(cards).Success?
    ensures
      var d := Deal(cards).value;
      && |d.player| >= 2 && |d.dealer| >= 2
      && d.player[..2] == [cards[0], cards[2]]
      && d.dealer[..2] == [cards[1], cards[3]]
      && cards[..d.cursor + 1] == cards[..4] + d.player[2..] + d.dealer[2..]
      && (!Natural(cards) ==> Stands(d.player) && Stands(d.dealer))
  {
    if !Natural(cards) {
      var p0, d0 := [cards[0], cards[2]], [cards[1], cards[3]];
      var (p, i) := Draw(p0, cards, 3).value;
      var (d, j) := Draw(d0, cards, i).value;
      DrawEnds(p0, cards, 3);
      DrawEnds(d0, cards, i);
      assert cards[..j + 1] == cards[..4] + cards[4 .. i + 1] + cards[i + 1 .. j + 1];
      assert p[2..] == cards[4 .. i + 1];
      assert d[2..] == cards[i + 1 .. j + 1];
    }
  }

  /**
   * The card under the final cursor is dealt in the round and is also the
   * first card left on the shoe, so the next round deals it again.
   */
  lemma DealKeepsLastCard(cards: seq<Card>)
    requires Deal(cards).Success?
    ensures
      var d := Deal(cards).value;
      && |cards[d.cursor..]| > 0
      && cards[d.cursor..][0] ==
           if |d.dealer| > 2 then d.dealer[|d.dealer| - 1]
           else if |d.player| > 2 then d.player[|d.player| - 1]
           else d.dealer[1]
  {
    DealShape(cards);
    var d := Deal(cards).value;
    var dealt := cards[..d.cursor + 1];
    assert dealt[d.cursor] == cards[d.cursor..][0];
    assert dealt == cards[..4] + d.player[2..] + d.dealer[2..];
    if |d.dealer| > 2 {
      assert dealt[d.cursor] == d.dealer[|d.dealer| - 1];
    } else if |d.player| > 2 {
      assert dealt[d.cursor] == d.player[|d.player| - 1];
    } else {
      assert dealt[d.cursor] == cards[3] == d.dealer[1];
    }
  }

  /**
   * A natural: when either two-card hand is worth more than 7, both hands
   * keep two cards and only three cards leave the shoe.
   */
  lemma DealNatural(cards: seq<Card>)
    requires |cards| >= 4 && Natural(cards)
    ensures Deal(cards) == Success(Dealt([cards[0], cards[2]], [cards[1], cards[3]], 3))
  {
  }

  /**
   * The drawing rule reads only the cards it deals: a draw that succeeds on
   * a shoe extended by `more` deals the same hand on `cards` alone, unless
   * its final cursor lies beyond the end of `cards`, where it fails.
   * `DrawExtend` gives the other direction.
   */
  lemma {:induction false} DrawPrefix(hand: Hand, cards: seq<Card>, more: seq<Card>, idx: nat)
    requires idx < |cards|
    requires Draw(hand, cards + more, idx).Success?
    ensures
      var j := Draw(hand, cards + more, idx).value.1;
      Draw(hand, cards, idx) ==
        if j < |cards| then Draw(hand, cards + more, idx) else Failure(IndexOutOfBounds)
    decreases |cards| - idx
  {
    var all := cards + more;
    var v := HandValue(hand).value;
    if v < 6 && idx + 1 < |cards| {
      assert all[idx + 1] == cards[idx + 1];
      DrawPrefix(hand + [cards[idx + 1]], cards, more, idx + 1);
    }
  }

  /**
   * A round reads only the cards it deals: a round that succeeds on a shoe
   * extended by `more` is dealt the same from `cards` alone, and panics there
   * exactly when `cards` ends at or before the final cursor. `DealExtend`
   * gives the other direction.
   */
  lemma DealOnlyReadsDealtCards(cards: seq<Card>, more: seq<Card>)
    requires Deal(cards + more).Success?
    ensures
      var d := Deal(cards + more).value;
      Deal(cards) == if d.cursor < |cards| then Success(d) else Failure(IndexOutOfBounds)
  {
    var all := cards + more;
    if |cards| >= 4 {
      assert all[..4] == cards[..4];
      assert [all[0], all[2]] == [cards[0], cards[2]] && [all[1], all[3]] == [cards[1], cards[3]];
      if !Natural(cards) {
        var p0, d0 := [cards[0], cards[2]], [cards[1], cards[3]];
        var i := Draw(p0, all, 3).value.1;
        DrawPrefix(p0, cards, more, 3);
        if i < |cards| {
          DrawPrefix(d0, cards, more, i);
        }
      }
    }
  }

  /**
   * The converse of `DrawPrefix`: a draw that does not run off `cards`
   * deals the same hand, or fails on the same rank, on every extension
   * `cards + more`.
   */
  lemma {:induction false} DrawExtend(hand: Hand, cards: seq<Card>, more: seq<Card>, idx: nat)
    requires idx < |cards|
    requires Draw(hand, cards, idx) != Failure(IndexOutOfBounds)
    ensures Draw(hand, cards + more, idx) == Draw(hand, cards, idx)
    decreases |cards| - idx
  {
    var all := cards + more;
    if HandValue(hand).Success? && HandValue(hand).value < 6 {
      assert all[idx + 1] == cards[idx + 1];
      DrawExtend(hand + [cards[idx + 1]], cards, more, idx + 1);
    }
  }

  /**
   * The converse of `DealOnlyReadsDealtCards`: a round that does not run
   * off `cards` deals the same, or fails on the same rank, whatever is
   * appended to the shoe. Together the two lemmas say that two shoes
   * agreeing on the cards a round deals deal the same round.
   */
  lemma DealExtend(cards: seq<Card>, more: seq<Card>)
    requires Deal(cards) != Failure(IndexOutOfBounds)
    ensures Deal(cards + more) == Deal(cards)
  {
    var all := cards + more;
    assert [all[0], all[2]] == [cards[0], cards[2]] && [all[1], all[3]] == [cards[1], cards[3]];
    if !Natural(cards) {
      var p0, d0 := [cards[0], cards[2]], [cards[1], cards[3]];
      if HandValue(p0).Success? && HandValue(d0).Success? {
        DrawExtend(p0, cards, more, 3);
        var r := Draw(p0, cards, 3);
        if r.Success? {
          DrawExtend(d0, cards, more, r.value.1);
        }
      }
    }
  }

  /**
   * On a shoe of valid cards a round never fails on a rank, and both hands
   * it deals hold valid cards.
   */
  lemma DealValidShoe(cards: seq<Card>)
    requires AllValid(cards)
    ensures Deal(cards) != Failure(RankOutOfRange)
    ensures Deal(cards).Success? ==> AllValid(Deal(cards).value.player) && AllValid(Deal(cards).value.dealer)
  {
    if |cards| >= 4 {
      var p0, d0 := [cards[0], cards[2]], [cards[1], cards[3]];
      assert AllValid(p0) && AllValid(d0);
      assert AllValid(p0 + cards[4..]);
      DrawEnds(p0, cards, 3);
      var r := Draw(p0, cards, 3);
      if r.Success? {
        var i := r.value.1;
        assert AllValid(cards[4 .. i + 1]);
        assert AllValid(d0 + cards[i + 1 ..]);
        DrawEnds(d0, cards, i);
        var q := Draw(d0, cards, i);
        if q.Success? {
          assert AllValid(cards[i + 1 .. q.value.1 + 1]);
        }
      }
    }
  }

  /**
   * Drawing through ten-valued cards never lifts a hand worth less than 6,
   * so the rule runs off the end of the shoe however long it is.
   */
  lemma {:induction false} DrawThroughTens(hand: Hand, cards: seq<Card>, idx: nat)
    requires idx < |cards|
    requires HandValue(hand).Success? && HandValue(hand).value < 6
    requires forall k :: idx < k < |cards| ==> 10 <= cards[k].rank <= 13
    ensures Draw(hand, cards, idx) == Failure(IndexOutOfBounds)
    decreases |cards| - idx
  {
    if idx + 1 < |cards| {
      TenValuedCardAddsNothing(hand, cards[idx + 1]);
      DrawThroughTens(hand + [cards[idx + 1]], cards, idx + 1);
    }
  }

  /**
   * A shoe of valid cards, of any length, can make a round panic: four aces
   * followed only by ten-valued cards leave the player at 2 forever.
   */
  lemma TensExhaustShoe(cards: seq<Card>)
    requires |cards| >= 4
    requires forall k :: 0 <= k < |cards| ==> if k < 4 then cards[k].rank == 1 else 10 <= cards[k].rank <= 13
    ensures AllValid(cards)
    ensures Deal(cards) == Failure(IndexOutOfBounds)
  {
    var p0, d0 := [cards[0], cards[2]], [cards[1], cards[3]];
    HandValueAppend([], cards[0]);
    HandValueAppend([], cards[1]);
    assert [] + [cards[0]] == [cards[0]] && [] + [cards[1]] == [cards[1]];
    HandValueAppend([cards[0]], cards[2]);
    HandValueAppend([cards[1]], cards[3]);
    assert [cards[0]] + [cards[2]] == p0 && [cards[1]] + [cards[3]] == d0;
    assert HandValue(p0) == Success(2) && HandValue(d0) == Success(2);
    DrawThroughTens(p0, cards, 3);
    assert !Natural(cards);
    assert Draw(p0, cards, 3) == Failure(IndexOutOfBounds);
  }

  /**
   * A round with one draw on each side deals six cards and removes five;
   * the dealer's third card is left on top of the shoe.
   */
  lemma DealOneDrawEach(rest: seq<Card>)
    ensures
      var cards := [Card(2, Spades), Card(3, Spades), Card(2, Hearts), Card(1, Clubs),
                    Card(2, Clubs), Card(2, Diamonds)] + rest;
      Deal(cards) == Success(Dealt([cards[0], cards[2], cards[4]], [cards[1], cards[3], cards[5]], 5))
  {
    var cards := [Card(2, Spades), Card(3, Spades), Card(2, Hearts), Card(1, Clubs),
                  Card(2, Clubs), Card(2, Diamonds)] + rest;
    var p0, d0 := [cards[0], cards[2]], [cards[1], cards[3]];
    HandValueAppend([], cards[0]);
    HandValueAppend([], cards[1]);
    assert [] + [cards[0]] == [cards[0]] && [] + [cards[1]] == [cards[1]];
    HandValueAppend([cards[0]], cards[2]);
    HandValueAppend([cards[1]], cards[3]);
    assert [cards[0]] + [cards[2]] == p0 && [cards[1]] + [cards[3]] == d0;
    HandValueAppend(p0, cards[4]);
    HandValueAppend(d0, cards[5]);
    assert p0 + [cards[4]] == [cards[0], cards[2], cards[4]];
    assert d0 + [cards[5]] == [cards[1], cards[3], cards[5]];
    assert HandValue(p0) == Success(4) && HandValue(d0) == Success(4);
    assert HandValue(p0 + [cards[4]]) == Success(6) && HandValue(d0 + [cards[5]]) == Success(6);
    assert Draw(p0, cards, 3) == Success((p0 + [cards[4]], 4));
    assert Draw(d0, cards, 4) == Success((d0 + [cards[5]], 5));
  }

  /**
   * One side's drawing loop: while the hand is worth less than 6, push the
   * card after the cursor and advance the cursor.
   */
  method DrawLoop(hand: Hand, cards: seq<Card>, idx: nat) returns (r: Result<(Hand, nat)>)
    requires idx < |cards|
    ensures r == Draw(hand, cards, idx)
  {
    var h, i := hand, idx;
    var v := HandValueOf(h);
    while v.Success? && v.value < 6
      invariant idx <= i < |cards|
      invariant v == HandValue(h)
      invariant Draw(h, cards, i) == Draw(hand, cards, idx)
      decreases |cards| - i
    {
      if i + 1 >= |cards| {
        return Failure(IndexOutOfBounds);
      }
      h := h + [cards[i + 1]];
      i := i + 1;
      v := HandValueOf(h);
    }
    if v.Failure? {
      return Failure(v.error);
    }
    r := Success((h, i));
  }

  /**
   * Deals one round from the front of the shoe: builds both hands, runs the
   * natural check and the two drawing loops, then removes the cards before
   * the cursor from the front of the shoe.
   */
  method PlayHand(shoe: Shoe) returns (r: Result<(Hand, Hand)>)
    modifies shoe
    ensures Deal(old(shoe.cards)).Success? ==>
      var d := Deal(old(shoe.cards)).value;
      r == Success((d.player, d.dealer)) && shoe.cards == old(shoe.cards)[d.cursor..]
    ensures Deal(old(shoe.cards)).Failure? ==>
      r == Failure(Deal(old(shoe.cards)).error) && shoe.cards == old(shoe.cards)
  {
    var cards := shoe.cards;
    if |cards| < 4 {
      return Failure(IndexOutOfBounds);
    }
    var player: Hand := [cards[0]];
    var dealer: Hand := [cards[1]];
    player := player + [cards[2]];
    dealer := dealer + [cards[3]];
    assert player == [cards[0], cards[2]] && dealer == [cards[1], cards[3]];
    var shoeIndex: nat := 3;

    var pv := HandValueOf(player);
    if pv.Failure? {
      return Failure(pv.error);
    }
    if pv.value > 7 {
      shoe.cards := cards[shoeIndex..];
      return Success((player, dealer));
    }
    var dv := HandValueOf(dealer);
    if dv.Failure? {
      return Failure(dv.error);
    }
    if dv.value > 7 {
      shoe.cards := cards[shoeIndex..];
      return Success((player, dealer));
    }

    var drawn := DrawLoop(player, cards, shoeIndex);
    if drawn.Failure? {
      return Failure(drawn.error);
    }
    player, shoeIndex := drawn.value.0, drawn.value.1;
    drawn := DrawLoop(dealer, cards, shoeIndex);
    if drawn.Failure? {
      return Failure(drawn.error);
    }
    dealer, shoeIndex := drawn.value.0, drawn.value.1;

    shoe.cards := cards[shoeIndex..];
    r := Success((player, dealer));
  }
}
