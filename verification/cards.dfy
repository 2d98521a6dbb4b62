/**
 * Playing cards and their point values in the baccarat simulator.
 *
 * A card carries an 8-bit rank and a suit. Only the rank scores: aces to
 * nines count their face value, tens and court cards count ten, and a hand
 * is worth the sum of its cards modulo ten. A rank outside 1..13 makes the
 * simulator abort; that abort is the `RankOutOfRange` failure here.
 */
module Cards {

  /** The fatal conditions of the simulator. Each one aborts the program. */
  datatype Panic =
    | RankOutOfRange    // a card's rank is not in 1..13
    | IndexOutOfBounds  // the dealer indexed past the end of the shoe

  /** The result of an operation that may abort. */
  datatype Result<T> = Success(value: T) | Failure(error: Panic)

  /** An unsigned 8-bit integer, the type of a card's rank. */
  type U8 = x: int | 0 <= x < 256

  datatype Suit = Spades | Clubs | Hearts | Diamonds

  datatype Card = Card(rank: U8, suit: Suit)

  /** The cards dealt to one side during a round, in the order dealt. */
  type Hand = seq<Card>

  predicate ValidRank(rank: int) {
    1 <= rank <= 13
  }

  predicate AllValid(cards: seq<Card>) {
    forall c :: c in cards ==> ValidRank(c.rank)
  }

  /** The point value of one card. */
  function CardValue(card: Card): (r: Result<nat>)
    ensures 1 <= card.rank <= 9 ==> r == Success(card.rank)
    ensures 10 <= card.rank <= 13 ==> r == Success(10)
    ensures !ValidRank(card.rank) ==> r == Failure(RankOutOfRange)
  {
    if 1 <= card.rank <= 9 then Success(card.rank)
    else if 10 <= card.rank <= 13 then Success(10)
    else Failure(RankOutOfRange)
  }

  /**
   * The sum of the card values of `hand`, taken left to right; it fails at
   * the first card whose rank is out of range.
   */
  function Points(hand: Hand): (r: Result<nat>)
    ensures r.Success? <==> AllValid(hand)
    ensures r.Failure? ==> r.error == RankOutOfRange
    ensures r.Success? ==> |hand| <= r.value <= 10 * |hand|
  {
    if hand == [] then Success(0)
    else
      var init, last := hand[..|hand| - 1], hand[|hand| - 1];
      assert hand == init + [last];
      match Points(init)
      case Failure(e) => Failure(e)
      case Success(p) =>
        match CardValue(last)
        case Failure(e) => Failure(e)
        case Success(v) => Success(p + v)
  }

  /** The baccarat value of a hand: its points modulo ten. */
  function HandValue(hand: Hand): (r: Result<nat>)
    ensures r.Success? <==> AllValid(hand)
    ensures r.Failure? ==> r.error == RankOutOfRange
    ensures r.Success? ==> r.value < 10
  {
    match Points(hand)
    case Failure(e) => Failure(e)
    case Success(p) => Success(p % 10)
  }

  /** Drawing a card adds its value to the hand's value, modulo ten. */
  lemma {:induction false} HandValueAppend(hand: Hand, c: Card)
    requires AllValid(hand) && ValidRank(c.rank)
    ensures HandValue(hand + [c]) == Success((HandValue(hand).value + CardValue(c).value) % 10)
  {
    var h := hand + [c];
    assert h[..|h| - 1] == hand;
    assert h[|h| - 1] == c;
    var p, v := Points(hand).value, CardValue(c).value;
    assert Points(h) == Success(p + v);
    ModTenOfSum(p, v);
  }

  /** Reducing the first summand modulo ten does not change the sum modulo ten. */
  lemma ModTenOfSum(p: nat, v: nat)
    ensures (p + v) % 10 == (p % 10 + v) % 10
  {
    var q := p / 10;
    assert p == 10 * q + p % 10;
    assert p + v == 10 * q + (p % 10 + v);
  }

  /**
   * A ten-valued card leaves a hand's value unchanged, so drawing until the
   * value reaches 6 is not bounded by the number of cards drawn.
   */
  lemma {:induction false} TenValuedCardAddsNothing(hand: Hand, c: Card)
    requires 10 <= c.rank <= 13
    ensures HandValue(hand + [c]) == HandValue(hand)
  {
    var h := hand + [c];
    assert h[..|h| - 1] == hand;
    assert h[|h| - 1] == c;
    if Points(hand).Success? {
      var p := Points(hand).value;
      assert Points(h) == Success(p + 10);
      ModTenOfSum(p, 10);
    }
  }

  /** An example of the scoring rule: 5 + 10 + 2 is worth 7. */
  lemma HandValueExample()
    ensures HandValue([Card(5, Spades), Card(13, Hearts), Card(2, Clubs)]) == Success(7)
  {
    var h := [Card(5, Spades), Card(13, Hearts), Card(2, Clubs)];
    assert h[..2][..1][..0] == [];
    assert Points(h[..2][..1]) == Success(5);
    assert Points(h[..2]) == Success(15);
    assert Points(h) == Success(17);
  }

  /** Computes a hand's value by accumulating card values over the hand. */
  method HandValueOf(hand: Hand) returns (r: Result<nat>)
    ensures r == HandValue(hand)
  {
    var total: nat := 0;
    for i := 0 to |hand|
      invariant Points(hand[..i]) == Success(total)
    {
      var v := CardValue(hand[i]);
      if v.Failure? {
        assert hand[i] in hand;
        return Failure(v.error);
      }
      assert hand[..i + 1][..i] == hand[..i];
      total := total + v.value;
    }
    assert hand[..|hand|] == hand;
    r := Success(total % 10);
  }
}
