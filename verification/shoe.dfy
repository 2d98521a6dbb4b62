/**
 * Building decks and shoes.
 *
 * A deck is laid out suit by suit (spades, clubs, hearts, diamonds), ranks
 * 1 to 13 within each suit, and then shuffled in place. A shoe is the
 * concatenation of several independently shuffled decks; the decks are not
 * shuffled together.
 */
module ShoeBuilder {
  import opened Cards

  /** The order in which a fresh deck lays out its suits. */
  const SuitOrder: seq<Suit> := [Spades, Clubs, Hearts, Diamonds]

  /** The number of ranks in a suit. */
  const RanksPerSuit: nat := 13

  /** The cards of `suit` with ranks 1..n, in increasing rank. */
  function SuitRun(suit: Suit, n: nat): seq<Card>
    requires n <= RanksPerSuit
  {
    seq(n, k requires 0 <= k < n => Card(k + 1, suit))
  }

  /** The first `s` suits of `SuitOrder`, each with ranks 1..13. */
  function Suited(s: nat): seq<Card>
    requires s <= |SuitOrder|
  {
    if s == 0 then [] else Suited(s - 1) + SuitRun(SuitOrder[s - 1], RanksPerSuit)
  }

  /** A deck in the order it is built, before the shuffle. */
  function BaseDeck(): seq<Card> {
    Suited(|SuitOrder|)
  }

  /** The `d`-th block of 52 cards of a shoe. */
  function DeckAt(cards: seq<Card>, d: nat): seq<Card>
    requires 52 * d + 52 <= |cards|
  {
    cards[52 * d .. 52 * d + 52]
  }

  /** A suit run holds each rank 1..n of its suit once, and nothing else. */
  lemma {:induction false} SuitRunCount(suit: Suit, n: nat, c: Card)
    requires n <= RanksPerSuit
    ensures |SuitRun(suit, n)| == n
    ensures multiset(SuitRun(suit, n))[c] == if c.suit == suit && 1 <= c.rank <= n then 1 else 0
  {
    if n > 0 {
      SuitRunCount(suit, n - 1, c);
      assert SuitRun(suit, n) == SuitRun(suit, n - 1) + [Card(n, suit)];
    }
  }

  /** The first `s` suits hold each of their (suit, rank) pairs once. */
  lemma {:induction false} SuitedCount(s: nat, c: Card)
    requires s <= |SuitOrder|
    ensures |Suited(s)| == RanksPerSuit * s
    ensures multiset(Suited(s))[c] == if c.suit in SuitOrder[..s] && ValidRank(c.rank) then 1 else 0
  {
    if s > 0 {
      SuitedCount(s - 1, c);
      SuitRunCount(SuitOrder[s - 1], RanksPerSuit, c);
      assert multiset(Suited(s)) == multiset(Suited(s - 1)) + multiset(SuitRun(SuitOrder[s - 1], RanksPerSuit));
      assert SuitOrder[..s] == SuitOrder[..s - 1] + [SuitOrder[s - 1]];
      assert c.suit in SuitOrder[..s] <==> c.suit in SuitOrder[..s - 1] || c.suit == SuitOrder[s - 1];
    }
  }

  /** A base deck has 52 cards: every (suit, rank 1..13) pair exactly once. */
  lemma BaseDeckCount(c: Card)
    ensures |BaseDeck()| == 52
    ensures multiset(BaseDeck())[c] == if ValidRank(c.rank) then 1 else 0
  {
    SuitedCount(|SuitOrder|, c);
    assert SuitOrder[..|SuitOrder|] == SuitOrder;
    assert c.suit == SuitOrder[0] || c.suit == SuitOrder[1] || c.suit == SuitOrder[2] || c.suit == SuitOrder[3];
  }

  /**
   * `cards` is a shoe of `n` whole decks: block d is a permutation of the
   * base deck, so every valid card occurs exactly `n` times.
   */
  ghost predicate ShoeOfDecks(cards: seq<Card>, n: nat) {
    && |cards| == 52 * n
    && (forall d :: 0 <= d < n ==> multiset(DeckAt(cards, d)) == multiset(BaseDeck()))
    && (forall c :: multiset(cards)[c] == if ValidRank(c.rank) then n else 0)
  }

  /** Appending a shuffled deck to a shoe of `d` decks gives a shoe of `d + 1` decks. */
  lemma AppendDeck(before: seq<Card>, deck: seq<Card>, d: nat)
    requires ShoeOfDecks(before, d)
    requires |deck| == 52 && multiset(deck) == multiset(BaseDeck())
    ensures ShoeOfDecks(before + deck, d + 1)
  {
    var after := before + deck;
    forall k | 0 <= k < d
      ensures DeckAt(after, k) == DeckAt(before, k)
    {
      assert after[52 * k .. 52 * k + 52] == before[52 * k .. 52 * k + 52];
    }
    assert DeckAt(after, d) == deck;
    forall c
      ensures multiset(after)[c] == if ValidRank(c.rank) then d + 1 else 0
    {
      BaseDeckCount(c);
    }
  }

  /** A shoe of whole decks holds only valid cards. */
  lemma ShoeOfDecksIsValid(cards: seq<Card>, n: nat)
    requires ShoeOfDecks(cards, n)
    ensures AllValid(cards)
  {
    forall c | c in cards
      ensures ValidRank(c.rank)
    {
      assert multiset(cards)[c] > 0;
    }
  }

  /** A deck of cards, owned by the code that builds a shoe. */
  class Deck {
    var cards: seq<Card>

    constructor ()
      ensures cards == []
    {
      cards := [];
    }

    /**
     * Permutes the cards in place. The random source is a parameter: step i
     * of the Fisher-Yates walk swaps position i with position
     * `rand(i) % (i + 1)`. Callers may rely only on the result being a
     * permutation of the cards.
     */
    method Shuffle(rand: nat -> nat)
      modifies this
      ensures |cards| == |old(cards)|
      ensures multiset(cards) == multiset(old(cards))
    {
      var i := |cards|;
      while i > 1
        invariant 0 <= i <= |cards| == |old(cards)|
        invariant multiset(cards) == multiset(old(cards))
      {
        i := i - 1;
        var j := rand(i) % (i + 1);
        cards := cards[i := cards[j]][j := cards[i]];
      }
    }
  }

  /** A shoe: the cards still to be dealt, the next card first. */
  class Shoe {
    var cards: seq<Card>

    constructor ()
      ensures cards == []
    {
      cards := [];
    }
  }

  /** Builds one deck in suit-major order and shuffles it. */
  method CreateDeck(rand: nat -> nat) returns (deck: Deck)
    ensures fresh(deck)
    ensures |deck.cards| == 52
    ensures multiset(deck.cards) == multiset(BaseDeck())
  {
    deck := new Deck();
    for s := 0 to |SuitOrder|
      invariant deck.cards == Suited(s)
    {
      for i := 1 to 14
        invariant deck.cards == Suited(s) + SuitRun(SuitOrder[s], i - 1)
      {
        deck.cards := deck.cards + [Card(i, SuitOrder[s])];
      }
    }
    deck.Shuffle(rand);
    BaseDeckCount(Card(1, Spades));
  }

  /**
   * Builds a shoe of `numDecks` decks, each built and shuffled on its own
   * and appended to the back of the shoe. `rand(d, i)` is the random draw
   * for step i of the shuffle of deck d.
   */
  method CreateShoe(numDecks: U8, rand: (nat, nat) -> nat) returns (shoe: Shoe)
    ensures fresh(shoe)
    ensures |shoe.cards| == 52 * numDecks
    ensures forall d :: 0 <= d < numDecks ==> multiset(DeckAt(shoe.cards, d)) == multiset(BaseDeck())
    ensures forall c :: multiset(shoe.cards)[c] == if ValidRank(c.rank) then numDecks else 0
    // The three clauses above, restated as the predicate that callers and
    // `AppendDeck` reason with.
    ensures ShoeOfDecks(shoe.cards, numDecks) && AllValid(shoe.cards)
  {
    shoe := new Shoe();
    for d := 0 to numDecks
      invariant ShoeOfDecks(shoe.cards, d)
    {
      var deck := CreateDeck(i => rand(d, i));
      AppendDeck(shoe.cards, deck.cards, d);
      shoe.cards := shoe.cards + deck.cards;
      deck.cards := [];
    }
    ShoeOfDecksIsValid(shoe.cards, numDecks);
  }
}
