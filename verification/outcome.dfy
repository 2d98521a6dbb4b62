/** Classifying a finished round. */
module Outcomes {
  import opened Cards

  datatype Outcome = Player | Dealer | Tie

  /**
   * Compares the values of the two hands: equal values tie, otherwise the
   * higher value wins. Scoring either hand may fail on a bad rank.
   */
  function CheckOutcome(player: Hand, dealer: Hand): (r: Result<Outcome>)
    ensures r.Success? <==> AllValid(player) && AllValid(dealer)
    ensures r.Failure? ==> r.error == RankOutOfRange
    ensures r.Success? ==>
      var pv, dv := HandValue(player).value, HandValue(dealer).value;
      && (r.value == Tie <==> pv == dv)
      && (r.value == Player <==> pv > dv)
      && (r.value == Dealer <==> pv < dv)
  {
    match HandValue(player)
    case Failure(e) => Failure(e)
    case Success(pv) =>
      match HandValue(dealer)
      case Failure(e) => Failure(e)
      case Success(dv) =>
        if pv == dv then Success(Tie)
        else if pv > dv then Success(Player)
        else Success(Dealer)
  }

  /**
   * The comparison is symmetric: exchanging the two hands exchanges a
   * player win and a dealer win and keeps a tie.
   */
  lemma CheckOutcomeSwap(player: Hand, dealer: Hand)
    ensures CheckOutcome(player, dealer).Success? == CheckOutcome(dealer, player).Success?
    ensures CheckOutcome(player, dealer) == Success(Tie) <==> CheckOutcome(dealer, player) == Success(Tie)
    ensures CheckOutcome(player, dealer) == Success(Player) <==> CheckOutcome(dealer, player) == Success(Dealer)
  {
  }

  /** Examples: 5 against 5 ties, 7 beats 3, 2 loses to 8. */
  lemma CheckOutcomeExamples()
    ensures CheckOutcome([Card(5, Spades)], [Card(10, Hearts), Card(5, Clubs)]) == Success(Tie)
    ensures CheckOutcome([Card(7, Spades)], [Card(3, Hearts)]) == Success(Player)
    ensures CheckOutcome([Card(2, Spades)], [Card(8, Hearts)]) == Success(Dealer)
  {
    HandValueAppend([Card(10, Hearts)], Card(5, Clubs));
    HandValueAppend([], Card(10, Hearts));
    HandValueAppend([], Card(5, Spades));
    HandValueAppend([], Card(7, Spades));
    HandValueAppend([], Card(3, Hearts));
    HandValueAppend([], Card(2, Spades));
    HandValueAppend([], Card(8, Hearts));
    assert [Card(10, Hearts)] + [Card(5, Clubs)] == [Card(10, Hearts), Card(5, Clubs)];
  }
}
