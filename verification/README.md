# Baccarat simulator — a Dafny model

This project models the core of a small baccarat simulator written in Rust
(`src/main.rs`).

## What the simulator does

1. **Build shoes.** The simulator builds shoes of eight decks. Each deck is
   laid out suit by suit (spades, clubs, hearts, diamonds), ranks 1 to 13
   within each suit. Each deck is shuffled on its own and then appended to
   the back of the shoe.
2. **Play rounds.** Rounds are dealt from the front of the shoe until the
   cut card is reached. The cut card is drawn between 70% and 90% of the
   shoe.
3. **Deal a round.**
   - The player gets cards 0 and 2; the dealer gets cards 1 and 3.
   - If either two-card hand is worth more than 7, the round is a natural
     and nobody draws.
   - Otherwise the player draws while its hand is worth less than 6. Then
     the dealer draws while its hand is worth less than 6.
4. **Score and count.** A hand is worth the sum of its card values modulo
   ten. Aces to nines count their rank; tens and court cards count ten. The
   higher hand wins, and equal hands tie. Three counters tally player wins,
   dealer wins and ties.

## Module layout

| file | module | models |
|---|---|---|
| `cards.dfy` | `Cards` | cards, ranks, `card_value`, `hand_value` |
| `shoe.dfy` | `ShoeBuilder` | `Deck`, `Deck::shuffle`, `create_deck`, `Shoe`, `create_shoe` |
| `dealer.dfy` | `Dealer` | `play_hand` |
| `outcome.dfy` | `Outcomes` | `Outcome`, `check_outcome` |
| `driver.dfy` | `Driver` | the shoe loop and the round loop of `main` |

## How the model works

- **Panics.** Every panic of the program is a `Failure` of a `Result`:
  - `RankOutOfRange` is the panic of `card_value` on a rank outside 1..13.
  - `IndexOutOfBounds` is an index past the end of the shoe in `play_hand`.
- **State.** `Deck` and `Shoe` are classes whose `cards` field the methods
  reassign. The methods are:
  - `Deck.Shuffle`, `CreateDeck` and `CreateShoe`;
  - `PlayHand`, which removes cards from the front of the shoe;
  - `PlayShoe`, the round loop;
  - `PlayNewShoe`, one pass of the shoe loop, and `Simulate`, the shoe
    loop.
- **Specifications.** Each method is proved against a specification
  function:
  - `HandValueOf` is proved against `HandValue`;
  - `DrawLoop` against `Draw`;
  - `PlayHand` against `Deal`;
  - `PlayShoe` against `PlayOut`;
  - `Simulate` against `PlayShoes`, over the shoes it built.

  The lemmas then state what the program promises about those functions.

### Cards removed after a round

`play_hand` removes `shoe_index` cards from the front of the shoe, where
`shoe_index` is the index of the last card dealt. That is one card fewer
than it dealt:
- a natural deals 4 cards and removes 3;
- a round with one draw on each side deals 6 cards and removes 5.

So the last card dealt stays on top of the shoe, and the next round deals
it again. The model follows the code:
- `Dealer.PlayHand` leaves `old(shoe.cards)[cursor..]`;
- `Dealer.DealKeepsLastCard` states that the first card left on the shoe
  is the last card dealt in the round;
- `Dealer.DealOneDrawEach` fixes a shoe with one draw on each side and
  shows the cursor ending on 5.

In that round the code removes 5 of the 6 cards it dealt.

## Model

| member | source | states |
|---|---|---|
| Cards.CardValue | src/main.rs:77-93 | ranks 1..9 are worth their rank, ranks 10..13 are worth 10, and any other rank aborts |
| Cards.Points | src/main.rs:96-102 | the summing loop succeeds exactly when every card has a valid rank; a failure is always the rank panic; a hand of n cards sums to between n and 10n |
| Cards.HandValue | src/main.rs:96-102 | a hand's value succeeds exactly when all its ranks are valid, and is then a single digit below 10 |
| Cards.HandValueAppend | src/main.rs:96-102 | adding a card to a valid hand adds its value to the hand's value modulo ten |
| Cards.TenValuedCardAddsNothing | src/main.rs:88-102 | a ten or a court card never changes a hand's value |
| Cards.HandValueExample | src/main.rs:96-102 | 5, king and 2 are worth 7 |
| Cards.HandValueOf | src/main.rs:96-102 | the loop that accumulates card values and reduces modulo ten computes exactly `HandValue`, including the abort at the first bad rank |
| ShoeBuilder.SuitedCount | src/main.rs:116-123 | after s suits the deck has 13·s cards, and each (suit, rank 1..13) pair of those suits occurs exactly once |
| ShoeBuilder.BaseDeckCount | src/main.rs:114-124 | the unshuffled deck has 52 cards, and every valid card occurs exactly once while no invalid card occurs |
| ShoeBuilder.Deck.Shuffle | src/main.rs:53-57 | the shuffle keeps the length and is a permutation of the cards |
| ShoeBuilder.CreateDeck | src/main.rs:114-126 | a fresh deck of 52 cards that is a permutation of the suit-major base deck |
| ShoeBuilder.AppendDeck | src/main.rs:107-110 | appending a shuffled deck to a shoe of d whole decks gives a shoe of d+1 whole decks |
| ShoeBuilder.ShoeOfDecksIsValid | src/main.rs:104-112 | a shoe made of whole decks holds only valid ranks |
| ShoeBuilder.CreateShoe | src/main.rs:104-112 | a fresh shoe of 52·n cards; block d is a permutation of a deck; every valid card occurs exactly n times; every rank is valid |
| Dealer.Draw | src/main.rs:142-154 | the drawing rule takes the cards right after the cursor, in shoe order, and leaves the cursor on a card of the shoe |
| Dealer.DrawEnds | src/main.rs:142-154 | a hand returned by the rule is worth at least 6; running off the shoe means the hand together with all remaining cards is worth less than 6; the rank panic means a bad rank among them |
| Dealer.DrawStopsAtFirstStand | src/main.rs:142-154 | before each card the rule takes, the hand holding the cards taken so far has a valid value below 6, so the rule stops at the first value of 6 or more |
| Dealer.DrawRunsOffNeverStood | src/main.rs:142-154 | the rule runs off the end of the shoe only if it never stood: the hand with each further card added in turn, up to the last card of the shoe, has a valid value below 6 |
| Dealer.Deal | src/main.rs:128-158 | fewer than four cards is an index panic; a dealt round leaves the cursor at index 3 or later inside the shoe |
| Dealer.DealShape | src/main.rs:128-158 | player holds cards 0, 2 and its draws; dealer holds cards 1, 3 and its draws; the dealt cards are exactly the first cursor+1 of the shoe in that order; without a natural both hands end worth at least 6 |
| Dealer.DealKeepsLastCard | src/main.rs:138-156 | the first card left on the shoe after a round is the last card dealt in that round: the dealer's last draw, else the player's last draw, else the dealer's second card |
| Dealer.DealRunsOffOnlyWhileDrawing | src/main.rs:128-158 | on four or more cards a round runs off the shoe only without a natural and while drawing: the player's hand, or the dealer's hand after the player's draws, never stood, being worth less than 6 with each card left added in turn up to the last one |
| Dealer.DealNatural | src/main.rs:137-140 | a natural deals exactly the two two-card hands and puts the cursor on 3 |
| Dealer.DrawPrefix | src/main.rs:142-154 | a draw that succeeds on a shoe deals the same hand on any prefix that still holds its final cursor, and panics on any shorter prefix |
| Dealer.DrawExtend | src/main.rs:142-154 | a draw that does not run off a shoe gives the same hand, or the same rank panic, on every extension of that shoe |
| Dealer.DealOnlyReadsDealtCards | src/main.rs:128-158 | a round that succeeds on a shoe is dealt the same from any prefix that still holds its final cursor, and panics on any shorter prefix |
| Dealer.DealExtend | src/main.rs:128-158 | a round that does not run off a shoe gives the same hands and cursor, or the same rank panic, on every extension of that shoe; with `DealOnlyReadsDealtCards`, two shoes that agree on the cards a round deals deal the same round |
| Dealer.DealValidShoe | src/main.rs:128-158 | on a shoe of valid ranks a round never hits the rank panic, and both hands hold valid ranks |
| Dealer.DrawThroughTens | src/main.rs:142-147 | a hand worth less than 6 drawing only ten-valued cards runs off the end of the shoe |
| Dealer.TensExhaustShoe | src/main.rs:128-158 | four aces followed only by ten-valued cards make a valid shoe of any length on which a round panics |
| Dealer.DealOneDrawEach | src/main.rs:128-158 | a shoe that forces one draw per side deals six cards and leaves the cursor on 5 |
| Dealer.DrawLoop | src/main.rs:142-154 | each draw loop computes exactly the drawing rule `Draw` |
| Dealer.PlayHand | src/main.rs:128-158 | returns the hands of `Deal` and removes the first cursor cards from the shoe, or aborts with `Deal`'s panic |
| Outcomes.CheckOutcome | src/main.rs:160-168 | succeeds exactly when both hands have valid ranks; tie iff equal values, player iff the player's value is higher, dealer iff it is lower |
| Outcomes.CheckOutcomeSwap | src/main.rs:160-168 | exchanging the hands exchanges player and dealer wins and keeps ties |
| Outcomes.CheckOutcomeExamples | src/main.rs:160-168 | 5 against 10+5 ties, 7 beats 3, 2 loses to 8 |
| Driver.Record | src/main.rs:25-29 | counting a round raises exactly the counter of its outcome by one |
| Driver.CutBounds | src/main.rs:17-19 | for 416 cards the cut card lies in 291..373 |
| Driver.CutLeavesCards | src/main.rs:17-20 | with a cut card in that range the stop count `416 - cut` is at least 43, so every round starts with at least 44 cards |
| Driver.PlayOut | src/main.rs:20-29 | the round loop stops at or below the stop count, leaves a suffix of the shoe, counts each round once, and each round takes at least three cards |
| Driver.PlayRound | src/main.rs:20-29 | one round followed by the rest of the loop keeps the same promises: stop count, suffix, one count per round, three cards per round |
| Driver.PlayOutValidShoe | src/main.rs:20-29 | the round loop on a shoe of valid ranks never hits the rank panic |
| Driver.PlayOutFailure | src/main.rs:20-29 | a failed loop failed in a round dealt from a suffix of the shoe still longer than the stop count, either while dealing or while classifying |
| Driver.ShoeRunsOffOnlyWhileDrawing | src/main.rs:17-29 | a shoe of valid cards cut in the simulator's range fails only by running off its end, in a round that starts with at least 44 cards and runs off while drawing |
| Driver.PlayShoe | src/main.rs:20-29 | the loop computes `PlayOut` from the shoe it is given: the counters, the cards left, the number of rounds, or the panic |
| Driver.PlayShoes | src/main.rs:15-32 | playing shoes in order carrying the counters: on success the counters add up to the starting total plus the rounds played |
| Driver.PlayShoesStep | src/main.rs:15-32 | one more shoe starts from the counters the earlier shoes end with and adds its rounds, or its panic ends the simulation |
| Driver.PlayShoesValid | src/main.rs:15-32 | shoes of valid cards never make the simulation hit the rank panic |
| Driver.PlayNewShoe | src/main.rs:16-29 | one pass of the shoe loop builds a shoe of eight whole decks, stops at `416 - cut`, reports exactly what `PlayOut` gives on that shoe, and never hits the rank panic |
| Driver.Simulate | src/main.rs:15-32 | returns the shoes it built, one per pass and all of them whole eight-deck shoes, with stop counts `416 - cut(i)`; its counters and round count are what `PlayShoes` gives on those shoes from zero, or the panic it gives; it never hits the rank panic, and the counters add up to the rounds played |

## Left out

- Console I/O is not modelled: the prompt, reading the number of shoes,
  the progress line and the final report (`src/main.rs:11-14`, `31-36`).
  `Simulate` takes the number of shoes as a parameter and returns the
  counters.
- Randomness is supplied by the caller.
  - `Deck.Shuffle` is written as a Fisher–Yates walk whose draws come from
    a parameter, and its contract promises only a permutation.
  - The cut card `cut(i)` is a parameter that the caller keeps within the
    range `gen_range` allows.
- ShoeBuilder.Deck.Shuffle: promises only that the result is a
  permutation. The uniform distribution of the random shuffle is not
  modelled.
- Driver.CutBounds: the floating-point cut bounds are written as integer
  floors, `n*7/10` and `n*9/10`. These agree with the `f32` computation for
  the 416-card shoe the program builds, but not necessarily for every size.
- Fixed-width integers are not modelled. This covers the `u32` counters,
  the `u32` sum in `hand_value` and the `u16` cursor. Their wrap-around
  cannot be reached with eight-deck shoes and a realistic number of rounds.
- Driver.PlayShoe: requires the cut card to be at most `52 * decks`. This
  is the caller's guarantee that the `usize` subtraction on line 20 does
  not underflow. The underflow panic is not modelled.
- Driver.Simulate: always builds shoes of 8 decks (`DecksPerShoe`), as
  `main` does.
- The two draw loops of `play_hand` are one method, `DrawLoop`, called
  once for the player and once for the dealer.
- The derived `Clone` and `Debug` implementations and the `Hand` wrapper
  struct are not modelled. A hand is a sequence of cards.
- Ownership transfer of the shoe through `play_hand` is modelled as an
  in-place update of one `Shoe` object.
