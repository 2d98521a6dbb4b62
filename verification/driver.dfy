/**
 * The simulation driver: plays rounds from a shoe until the cut card is
 * reached, tallying player wins, dealer wins and ties, and repeats this for
 * a number of freshly built shoes.
 */
module Driver {
  import opened Cards
  import opened ShoeBuilder
  import opened Dealer
  import opened Outcomes

  /** The number of decks in every shoe the simulator builds. */
  const DecksPerShoe: U8 := 8

  /** The three outcome counters. */
  datatype Tally = Tally(playerWins: nat, dealerWins: nat, ties: nat)

  function Total(t: Tally): nat {
    t.playerWins + t.dealerWins + t.ties
  }

  /** Counts one round: exactly the counter of its outcome goes up by one. */
  function Record(t: Tally, o: Outcome): (r: Tally)
    ensures Total(r) == Total(t) + 1
    ensures r.playerWins == t.playerWins + (if o == Player then 1 else 0)
    ensures r.dealerWins == t.dealerWins + (if o == Dealer then 1 else 0)
    ensures r.ties == t.ties + (if o == Tie then 1 else 0)
  {
    match o
    case Tie => t.(ties := t.ties + 1)
    case Player => t.(playerWins := t.playerWins + 1)
    case Dealer => t.(dealerWins := t.dealerWins + 1)
  }

  /**
   * The lowest and one past the highest cut-card position for a shoe of
   * `shoeSize` cards: 70% and 90% of the shoe, rounded down.
   */
  function CutLower(shoeSize: nat): nat {
    shoeSize * 7 / 10
  }

  function CutUpper(shoeSize: nat): nat {
    shoeSize * 9 / 10
  }

  /** The cut card of an eight-deck shoe falls between card 291 and card 373. */
  lemma CutBounds()
    ensures CutLower(52 * DecksPerShoe) == 291 && CutUpper(52 * DecksPerShoe) == 374
  {
  }

  /**
   * The number of cards a shoe of `decks` decks is played down to: the
   * round loop goes on while the shoe holds more cards than this.
   */
  function StopAt(decks: U8, cutCard: nat): nat
    requires cutCard <= 52 * decks
  {
    52 * decks - cutCard
  }

  /**
   * With a cut card in the range the simulator draws from, the stop count
   * `416 - cutCard` of an eight-deck shoe is at least 43, so every round
   * starts with at least 44 cards in the shoe.
   */
  lemma CutLeavesCards(cutCard: nat)
    requires CutLower(52 * DecksPerShoe) <= cutCard < CutUpper(52 * DecksPerShoe)
    ensures cutCard <= 52 * DecksPerShoe && StopAt(DecksPerShoe, cutCard) >= 43
  {
    CutBounds();
  }

  /** What is left after playing a shoe down to its cut card. */
  datatype ShoeRun = ShoeRun(tally: Tally, rest: seq<Card>, rounds: nat)

  /**
   * Plays rounds from `cards` while more than `stop` cards remain, adding
   * each outcome to `tally` and counting the rounds on top of `rounds`.
   */
  function PlayOut(cards: seq<Card>, stop: nat, tally: Tally, rounds: nat): (r: Result<ShoeRun>)
    ensures r.Success? ==> PlayedOut(cards, stop, tally, rounds, r.value)
    decreases |cards|, 1
  {
    if |cards| <= stop then Success(ShoeRun(tally, cards, rounds))
    else PlayRound(cards, stop, tally, rounds)
  }

  /**
   * What a successful play-out promises: it stops at or below `stop`
   * cards, what is left is a suffix of the shoe, every round is counted
   * exactly once, and each round takes at least three cards off the shoe.
   */
  ghost predicate PlayedOut(cards: seq<Card>, stop: nat, tally: Tally, rounds: nat, run: ShoeRun) {
    && |run.rest| <= stop
    && |run.rest| <= |cards| && run.rest == cards[|cards| - |run.rest| ..]
    && rounds <= run.rounds
    && Total(run.tally) == Total(tally) + (run.rounds - rounds)
    && 3 * (run.rounds - rounds) + |run.rest| <= |cards|
  }

  /**
   * One round of the play-out, dealt from the front of `cards`, followed
   * by the play-out of what the round leaves on the shoe.
   */
  function PlayRound(cards: seq<Card>, stop: nat, tally: Tally, rounds: nat): (r: Result<ShoeRun>)
    requires |cards| > stop
    ensures r.Success? ==> PlayedOut(cards, stop, tally, rounds, r.value)
    decreases |cards|, 0
  {
    match Deal(cards)
    case Failure(e) => Failure(e)
    case Success(d) =>
      match CheckOutcome(d.player, d.dealer)
      case Failure(e) => Failure(e)
      case Success(o) =>
        var tail := cards[d.cursor..];
        var r := PlayOut(tail, stop, Record(tally, o), rounds + 1);
        if r.Failure? then r
        else
          PlayedOutStep(cards, d.cursor, stop, tally, Record(tally, o), rounds, r.value);
          r
  }

  /**
   * A round that takes `k >= 3` cards and counts one outcome, followed by a
   * play-out of the rest, is a play-out of the whole shoe.
   */
  lemma PlayedOutStep(cards: seq<Card>, k: nat, stop: nat, tally: Tally, next: Tally, rounds: nat, run: ShoeRun)
    requires 3 <= k <= |cards|
    requires Total(next) == Total(tally) + 1
    requires PlayedOut(cards[k..], stop, next, rounds + 1, run)
    ensures PlayedOut(cards, stop, tally, rounds, run)
  {
    assert cards[k..][|cards| - k - |run.rest| ..] == cards[|cards| - |run.rest| ..];
  }

  /** Playing a shoe of valid cards never fails on a rank. */
  lemma {:induction false} PlayOutValidShoe(cards: seq<Card>, stop: nat, tally: Tally, rounds: nat)
    requires AllValid(cards)
    ensures PlayOut(cards, stop, tally, rounds) != Failure(RankOutOfRange)
    decreases |cards|
  {
    if |cards| > stop {
      DealValidShoe(cards);
      if Deal(cards).Success? {
        var d := Deal(cards).value;
        var o := CheckOutcome(d.player, d.dealer).value;
        assert AllValid(cards[d.cursor..]);
        PlayOutValidShoe(cards[d.cursor..], stop, Record(tally, o), rounds + 1);
      }
    }
  }

  /**
   * A failed play-out failed in the round dealt from `cards[k..]`, a suffix
   * of the shoe still longer than `stop`: either dealing that round or
   * classifying it panicked.
   */
  lemma {:induction false} PlayOutFailure(cards: seq<Card>, stop: nat, tally: Tally, rounds: nat) returns (k: nat)
    requires PlayOut(cards, stop, tally, rounds).Failure?
    ensures k < |cards| && |cards| - k > stop
    ensures
      var e := PlayOut(cards, stop, tally, rounds).error;
      var deal := Deal(cards[k..]);
      || deal == Failure(e)
      || (deal.Success? && CheckOutcome(deal.value.player, deal.value.dealer) == Failure(e))
    decreases |cards|
  {
    var deal := Deal(cards);
    if deal.Failure? || CheckOutcome(deal.value.player, deal.value.dealer).Failure? {
      k := 0;
      assert cards[k..] == cards;
    } else {
      var d := deal.value;
      var o := CheckOutcome(d.player, d.dealer).value;
      var tail := cards[d.cursor..];
      var j := PlayOutFailure(tail, stop, Record(tally, o), rounds + 1);
      k := d.cursor + j;
      assert tail[j..] == cards[k..];
    }
  }

  /**
   * A shoe of valid cards played down to a cut card in the simulator's
   * range can only fail by running off its end, and the round that does so
   * starts with at least 44 cards: it is never short of the four opening
   * cards, it runs off while drawing.
   */
  lemma ShoeRunsOffOnlyWhileDrawing(cards: seq<Card>, cutCard: nat, tally: Tally) returns (k: nat)
    requires CutLower(52 * DecksPerShoe) <= cutCard < CutUpper(52 * DecksPerShoe)
    requires AllValid(cards)
    requires PlayOut(cards, StopAt(DecksPerShoe, cutCard), tally, 0).Failure?
    ensures PlayOut(cards, StopAt(DecksPerShoe, cutCard), tally, 0).error == IndexOutOfBounds
    ensures k < |cards| && |cards| - k >= 44
    ensures Deal(cards[k..]) == Failure(IndexOutOfBounds)
  {
    CutLeavesCards(cutCard);
    var stop := StopAt(DecksPerShoe, cutCard);
    PlayOutValidShoe(cards, stop, tally, 0);
    k := PlayOutFailure(cards, stop, tally, 0);
    assert AllValid(cards[k..]);
    DealValidShoe(cards[k..]);
  }

  /**
   * Plays one shoe down to its cut card: while the shoe holds more than
   * `52 * decksPerShoe - cutCard` cards, deals a round, classifies it and
   * bumps one counter. `rounds` counts the rounds played.
   */
  method PlayShoe(shoe: Shoe, decksPerShoe: U8, cutCard: nat, tally: Tally)
    returns (r: Result<Tally>, ghost rounds: nat)
    requires cutCard <= 52 * decksPerShoe
    modifies shoe
    ensures r.Success? ==>
      PlayOut(old(shoe.cards), StopAt(decksPerShoe, cutCard), tally, 0) == Success(ShoeRun(r.value, shoe.cards, rounds))
    ensures r.Failure? ==>
      PlayOut(old(shoe.cards), StopAt(decksPerShoe, cutCard), tally, 0) == Failure(r.error)
    ensures r.Success? ==>
      Total(r.value) == Total(tally) + rounds && |shoe.cards| <= StopAt(decksPerShoe, cutCard)
  {
    var stop := StopAt(decksPerShoe, cutCard);
    var t := tally;
    rounds := 0;
    while |shoe.cards| > stop
      invariant PlayOut(shoe.cards, stop, t, rounds) == PlayOut(old(shoe.cards), stop, tally, 0)
      decreases |shoe.cards|
    {
      ghost var before := shoe.cards;
      ghost var deal := Deal(before);
      var hands := PlayHand(shoe);
      if hands.Failure? {
        assert deal.Failure? && hands.error == deal.error;
        assert PlayOut(before, stop, t, rounds) == Failure(deal.error);
        r := Failure(hands.error);
        assert PlayOut(old(shoe.cards), stop, tally, 0) == Failure(r.error);
        return;
      }
      var (player, dealer) := hands.value;
      var outcome := CheckOutcome(player, dealer);
      if outcome.Failure? {
        assert PlayOut(before, stop, t, rounds) == Failure(outcome.error);
        r := Failure(outcome.error);
        assert PlayOut(old(shoe.cards), stop, tally, 0) == Failure(r.error);
        return;
      }
      assert PlayOut(before, stop, t, rounds) == PlayOut(shoe.cards, stop, Record(t, outcome.value), rounds + 1);
      match outcome.value {
        case Tie => t := t.(ties := t.ties + 1);
        case Player => t := t.(playerWins := t.playerWins + 1);
        case Dealer => t := t.(dealerWins := t.dealerWins + 1);
      }
      rounds := rounds + 1;
    }
    assert PlayOut(shoe.cards, stop, t, rounds) == Success(ShoeRun(t, shoe.cards, rounds));
    r := Success(t);
  }

  /**
   * Plays the shoes in order, each down to its own stop count, carrying the
   * counters from shoe to shoe. The result is the final counters and the
   * number of rounds played, or the first panic, after which no further
   * shoe is played.
   */
  function PlayShoes(shoes: seq<seq<Card>>, stops: seq<nat>, tally: Tally): (r: Result<(Tally, nat)>)
    requires |stops| == |shoes|
    ensures r.Success? ==> Total(r.value.0) == Total(tally) + r.value.1
    decreases |shoes|
  {
    if shoes == [] then Success((tally, 0))
    else
      var n := |shoes| - 1;
      AddShoe(PlayShoes(shoes[..n], stops[..n], tally), shoes[n], stops[n])
  }

  /**
   * Plays one more shoe after the shoes that gave `played`: it starts from
   * their counters and adds its rounds, unless an earlier shoe panicked.
   */
  function AddShoe(played: Result<(Tally, nat)>, cards: seq<Card>, stop: nat): Result<(Tally, nat)> {
    match played
    case Failure(e) => Failure(e)
    case Success((t, k)) =>
      match PlayOut(cards, stop, t, 0)
      case Failure(e) => Failure(e)
      case Success(run) => Success((run.tally, k + run.rounds))
  }

  /**
   * `r` and `rounds` are what a play-out `run` reports: the counters and
   * the number of rounds when it succeeds, its panic when it fails.
   */
  ghost predicate Reports(run: Result<ShoeRun>, r: Result<Tally>, rounds: nat) {
    if r.Success? then run.Success? && run.value.tally == r.value && run.value.rounds == rounds
    else run == Failure(r.error)
  }

  /**
   * Playing one more shoe after `shoes`: it starts from the counters the
   * earlier shoes end with and adds its rounds, or its panic ends the
   * simulation.
   */
  lemma PlayShoesStep(shoes: seq<seq<Card>>, stops: seq<nat>, tally: Tally, t: Tally, k: nat,
                      cards: seq<Card>, stop: nat, r: Result<Tally>, n: nat)
    requires |stops| == |shoes|
    requires PlayShoes(shoes, stops, tally) == Success((t, k))
    requires Reports(PlayOut(cards, stop, t, 0), r, n)
    ensures PlayShoes(shoes + [cards], stops + [stop], tally) ==
      if r.Success? then Success((r.value, k + n)) else Failure(r.error)
  {
    PlayShoesSnoc(shoes, stops, tally, cards, stop);
    AddShoeReports(t, k, cards, stop, r, n);
  }

  /** A shoe added after counters `t` and `k` rounds reports what its play-out reports. */
  lemma AddShoeReports(t: Tally, k: nat, cards: seq<Card>, stop: nat, r: Result<Tally>, n: nat)
    requires Reports(PlayOut(cards, stop, t, 0), r, n)
    ensures AddShoe(Success((t, k)), cards, stop) ==
      if r.Success? then Success((r.value, k + n)) else Failure(r.error)
  {
  }

  /** Playing `shoes` and then one more shoe is `AddShoe` after `PlayShoes`. */
  lemma PlayShoesSnoc(shoes: seq<seq<Card>>, stops: seq<nat>, tally: Tally, cards: seq<Card>, stop: nat)
    requires |stops| == |shoes|
    ensures PlayShoes(shoes + [cards], stops + [stop], tally) == AddShoe(PlayShoes(shoes, stops, tally), cards, stop)
  {
    var more, moreStops := shoes + [cards], stops + [stop];
    assert more[..|shoes|] == shoes && more[|shoes|] == cards;
    assert moreStops[..|stops|] == stops && moreStops[|stops|] == stop;
  }

  /** Shoes of valid cards never make the simulation fail on a rank. */
  lemma {:induction false} PlayShoesValid(shoes: seq<seq<Card>>, stops: seq<nat>, tally: Tally)
    requires |stops| == |shoes|
    requires forall i :: 0 <= i < |shoes| ==> AllValid(shoes[i])
    ensures PlayShoes(shoes, stops, tally) != Failure(RankOutOfRange)
    decreases |shoes|
  {
    if shoes != [] {
      var n := |shoes| - 1;
      PlayShoesValid(shoes[..n], stops[..n], tally);
      var prev := PlayShoes(shoes[..n], stops[..n], tally);
      if prev.Success? {
        PlayOutValidShoe(shoes[n], stops[n], prev.value.0, 0);
      }
    }
  }

  /**
   * One pass of the shoe loop: builds shoe `i` from `rand`, places its cut
   * card and plays it out from the counters `tally`. The ghost results are
   * the shoe that was built, its stop count and the number of rounds.
   */
  method PlayNewShoe(i: nat, rand: (nat, nat, nat) -> nat, cutCard: nat, tally: Tally)
    returns (r: Result<Tally>, ghost cards: seq<Card>, ghost stop: nat, ghost rounds: nat)
    requires CutLower(52 * DecksPerShoe) <= cutCard < CutUpper(52 * DecksPerShoe)
    ensures ShoeOfDecks(cards, DecksPerShoe)
    ensures stop + cutCard == 52 * DecksPerShoe
    ensures Reports(PlayOut(cards, stop, tally, 0), r, rounds)
    ensures r != Failure(RankOutOfRange)
  {
    var shoe := CreateShoe(DecksPerShoe, (d, k) => rand(i, d, k));
    CutLeavesCards(cutCard);
    cards := shoe.cards;
    stop := StopAt(DecksPerShoe, cutCard);
    r, rounds := PlayShoe(shoe, DecksPerShoe, cutCard, tally);
    if r.Failure? {
      PlayOutValidShoe(cards, stop, tally, 0);
    }
  }

  /** Appending a shoe of whole decks, cut by `cut`, keeps every shoe so. */
  lemma ShoesAppend(shoes: seq<seq<Card>>, stops: seq<nat>, cut: nat -> nat, cards: seq<Card>, stop: nat)
    requires |shoes| == |stops|
    requires forall j :: 0 <= j < |shoes| ==> ShoeOfDecks(shoes[j], DecksPerShoe)
    requires forall j :: 0 <= j < |stops| ==> stops[j] + cut(j) == 52 * DecksPerShoe
    requires ShoeOfDecks(cards, DecksPerShoe) && stop + cut(|stops|) == 52 * DecksPerShoe
    ensures forall j :: 0 <= j < |shoes| + 1 ==> ShoeOfDecks((shoes + [cards])[j], DecksPerShoe)
    ensures forall j :: 0 <= j < |stops| + 1 ==> (stops + [stop])[j] + cut(j) == 52 * DecksPerShoe
  {
  }

  /**
   * Simulates `numShoes` shoes of `DecksPerShoe` decks from zeroed
   * counters. The random sources are parameters: `rand(i, d, k)` is the
   * draw for shuffle step k of deck d of shoe i, and `cut(i)` is the cut
   * card of shoe i. The ghost results record the shoes built, each made of
   * whole decks, and their stop counts; the counters and the number of
   * rounds are what playing those shoes in order gives, and since every
   * shoe holds only valid cards the only failure left is running off the
   * end of a shoe.
   */
  method Simulate(numShoes: nat, rand: (nat, nat, nat) -> nat, cut: nat -> nat)
    returns (r: Result<Tally>, ghost shoes: seq<seq<Card>>, ghost stops: seq<nat>, ghost rounds: nat)
    requires forall i :: CutLower(52 * DecksPerShoe) <= cut(i) < CutUpper(52 * DecksPerShoe)
    ensures |shoes| == |stops| <= numShoes
    ensures r.Success? ==> |shoes| == numShoes
    ensures forall i :: 0 <= i < |shoes| ==> ShoeOfDecks(shoes[i], DecksPerShoe)
    ensures forall i :: 0 <= i < |stops| ==> stops[i] + cut(i) == 52 * DecksPerShoe
    ensures PlayShoes(shoes, stops, Tally(0, 0, 0)) ==
      if r.Success? then Success((r.value, rounds)) else Failure(r.error)
    ensures r != Failure(RankOutOfRange)
    ensures r.Success? ==> Total(r.value) == rounds
  {
    var t := Tally(0, 0, 0);
    rounds := 0;
    shoes, stops := [], [];
    for i := 0 to numShoes
      invariant |shoes| == |stops| == i
      invariant forall j :: 0 <= j < i ==> ShoeOfDecks(shoes[j], DecksPerShoe)
      invariant forall j :: 0 <= j < i ==> stops[j] + cut(j) == 52 * DecksPerShoe
      invariant PlayShoes(shoes, stops, Tally(0, 0, 0)) == Success((t, rounds))
    {
      var res;
      ghost var cards, stop, n;
      res, cards, stop, n := PlayNewShoe(i, rand, cut(i), t);
      PlayShoesStep(shoes, stops, Tally(0, 0, 0), t, rounds, cards, stop, res, n);
      ShoesAppend(shoes, stops, cut, cards, stop);
      shoes, stops := shoes + [cards], stops + [stop];
      if res.Failure? {
        r := res;
        return;
      }
      t := res.value;
      rounds := rounds + n;
    }
    r := Success(t);
  }
}
