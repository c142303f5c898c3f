# Poker engine, modelled and proved in Dafny

This project models the Texas Hold'em engine behind the poker server: the
cards and the deck (`backend/poker_engine/card.py`), the hand evaluator
(`backend/poker_engine/hand_evaluator.py`) and the table that seats players,
deals, takes blinds and bets, moves the turn, advances the streets and pays
the showdown (`backend/poker_engine/game.py`).

Layout:

- `Ordering` models Python's comparison of lists of integers and of strings.
- `Lists` holds sequence helpers: descending sort, counting and filtering.
- `Cards` models suits, ranks, `RANK_VALUES`, card order, the card text and
  its dictionary, and the 52-card pack in the order `Deck.reset` builds it.
- `Decks` models the `Deck` class. It has a `seq` field that `Reset`,
  `Shuffle` and `Deal` reassign in place. Deals pop from the end of the list.
- `HandScore` models `_score_five_cards`.
  - It runs the code's own branch order on the sorted ranks.
  - It is proved against an independent reference: category from the rank
    multiset and the suits, kicker shape per category, independence from
    card order.
- `HandEvaluator` models `itertools.combinations`, the best-hand loop of
  `_get_best_hand`, and `evaluate`. The result is proved to be the maximum
  over every five-card sub-hand.
- `GameSpec` models a table as a value (`Table`, `Seat`). Each operation of
  `Game` is a function from the table before to the table after, plus an
  outcome.
- `GameLemmas` proves what those functions keep and promise:
  - conservation of chips and of cards, and the betting invariants;
  - the blind seats, turn order, street dealing and the split pot;
  - the heads-up flow of `backend/tests/test_flow.py`.
- `Engine` models the `Player` and `Game` classes, whose methods update
  fields in place. Each method is proved to move the object from
  `Abstract()` to the table its `GameSpec` function gives.

The model follows the code of `game.py` where the comments and the
heads-up test in the repository expect something else:

- Heads-up, the dealer posts the big blind and the other seat posts the
  small blind and acts first (`game.py:59-67`). The comment at
  `game.py:57` says the dealer is the small blind for two players.
- No seat has an "acted" flag: `Player` (`game.py:5-18`) has no
  `has_acted`, which `backend/tests/test_flow.py:38` reads. The turn moves
  to the next seat that is neither folded nor all-in, and the street
  advances only when no such seat exists (`game.py:102-113`).
- After the small blind calls and the big blind checks, the hand therefore
  stays in PREFLOP (`GameLemmas.CallThenCheckStaysPreflop`), where
  `backend/tests/test_flow.py:76-82` expects FLOP with three community
  cards.
- A raise equal to the current bet is accepted: `game.py:93` refuses only
  `amount < current_bet`, although the message at `game.py:94` asks for a
  greater raise.
- The pot is not cleared after the showdown payout (`game.py:152-157`).

## Model

| member | source | states |
|---|---|---|
| Cards.RankValue | backend/poker_engine/card.py:27-31 | every rank's comparison value lies in 2..14 |
| Cards.RankOfValue | backend/poker_engine/card.py:27-31 | a rank with a given value exists exactly when the value is in 2..14 |
| Cards.RankValueRoundTrip | backend/poker_engine/card.py:27-31 | `RANK_VALUES` and its inverse round-trip both ways |
| Cards.RankValueInjective | backend/poker_engine/card.py:27-31 | distinct ranks have distinct values |
| Cards.SuitTextOrder | backend/poker_engine/card.py:44 | comparing suit names as strings orders Clubs < Diamonds < Hearts < Spades |
| Cards.CardLessIrreflexive | backend/poker_engine/card.py:41-44 | no card is less than itself |
| Cards.CardLessTransitive | backend/poker_engine/card.py:41-44 | `__lt__` (value first, then suit name) is transitive |
| Cards.CardLessTotal | backend/poker_engine/card.py:41-44 | of two distinct cards exactly one is less than the other |
| Cards.TextRoundTrip | backend/poker_engine/card.py:5-24 | every rank and suit is recovered from its enum text; rank texts hold no space |
| Cards.CardTextInjective | backend/poker_engine/card.py:38-39 | the text "rank of suit" names exactly one card |
| Cards.ToDict | backend/poker_engine/card.py:46-47 | the dictionary's rank and suit texts decode back to the card's own rank and suit, and its "string" is the card's `str` text, rank " of " suit |
| Cards.SuitIndex | backend/poker_engine/card.py:5-9 | each suit has a position among the four suits in declaration order |
| Cards.FullDeck | backend/poker_engine/card.py:55 | the fresh pack has 52 cards |
| Cards.FullDeckAt | backend/poker_engine/card.py:55 | the pack lists suits in declaration order, ranks within each suit; each card sits at its index |
| Cards.FullDeckExactlyOnce | backend/poker_engine/card.py:55 | every card occurs in the fresh pack exactly once |
| Decks.Swap | backend/poker_engine/card.py:58-59 | one exchange step of the shuffle keeps length and contents |
| Decks.ShuffleFrom | backend/poker_engine/card.py:58-59 | the Fisher-Yates pass over the draws is a permutation |
| Decks.ShuffledFullDeck | backend/poker_engine/card.py:54-59 | a reset deck holds 52 cards, each exactly once |
| Decks.DealSplits | backend/poker_engine/card.py:61-64 | dealing `count` cards returns them last-first and leaves the rest; together they are the deck |
| Decks.DealFromFullDeck | backend/poker_engine/card.py:61-64 | cards dealt from a full pack are distinct and none stays in the deck |
| Decks.Deck.constructor | backend/poker_engine/card.py:50-52 | a new deck is the shuffled fresh pack |
| Decks.Deck.Reset | backend/poker_engine/card.py:54-56 | the deck becomes the shuffled fresh pack |
| Decks.Deck.Shuffle | backend/poker_engine/card.py:58-59 | the in-place swaps leave `Shuffled(old cards, draws)`, a permutation of the old cards |
| Decks.Deck.Deal | backend/poker_engine/card.py:61-64 | with too few cards nothing changes and an error is returned; otherwise the popped cards and the remaining deck |
| HandScore.HandRankNames | backend/poker_engine/hand_evaluator.py:17-30 | the ten categories, and only they, have a name, and no two share one |
| HandScore.ScoreLessIrreflexive | backend/poker_engine/hand_evaluator.py:53-54 | no score beats itself |
| HandScore.ScoreLessTransitive | backend/poker_engine/hand_evaluator.py:53-54 | tuple comparison of scores is transitive |
| HandScore.ScoreLessTotal | backend/poker_engine/hand_evaluator.py:53-54 | of two distinct scores exactly one beats the other |
| Ordering.LexLessTotal | backend/poker_engine/hand_evaluator.py:53-54 | Python list comparison is total on integer lists |
| Ordering.LexLessTransitive | backend/poker_engine/hand_evaluator.py:53-54 | Python list comparison is transitive |
| Ordering.LexLessAsymmetric | backend/poker_engine/hand_evaluator.py:53-54 | no two lists are each less than the other |
| HandScore.SortedFacts | backend/poker_engine/hand_evaluator.py:62-64 | the sorted ranks are five values in 2..14, descending, with the cards' rank counts |
| HandScore.FlushIff | backend/poker_engine/hand_evaluator.py:66 | one suit in the set exactly when all five cards share a suit |
| HandScore.StraightRanksIff | backend/poker_engine/hand_evaluator.py:67-72 | the straight test holds exactly when the ranks are a run of five, the wheel included |
| HandScore.StraightIff | backend/poker_engine/hand_evaluator.py:67-72 | the code's straight test agrees with the reference `IsStraight` on the cards |
| HandScore.GroupsMember | backend/poker_engine/hand_evaluator.py:79-85 | a rank is listed among those counted `k` times exactly when it occurs `k` times |
| HandScore.GroupsStrict | backend/poker_engine/hand_evaluator.py:79-85 | those ranks are listed in strictly descending order |
| HandScore.QuadsFacts | backend/poker_engine/hand_evaluator.py:78-86 | five cards have at most one quad, and a quad excludes trips and pairs |
| HandScore.TripsPairsFacts | backend/poker_engine/hand_evaluator.py:83-107 | at most one trip and two pairs; a trip leaves room for at most one pair |
| HandScore.TwoPairsIff | backend/poker_engine/hand_evaluator.py:99 | two counts equal 2 exactly when two distinct ranks are paired |
| HandScore.CountTests | backend/poker_engine/hand_evaluator.py:78-107 | each `rank_counts.values()` test agrees with the reference count predicate |
| HandScore.ScoreFive | backend/poker_engine/hand_evaluator.py:59-109 | every five cards score a category from High Card to Royal Flush |
| HandScore.ScoreFiveCategory | backend/poker_engine/hand_evaluator.py:59-109 | the category equals the reference classification of the cards |
| HandScore.ScoreFiveKickers | backend/poker_engine/hand_evaluator.py:72-109 | the kickers of each category: quads, trips and pairs by their counts in the hand (higher pair first), then the single ranks descending; flush and high card the sorted ranks; a straight its sorted ranks, or 5,4,3,2,1 for the wheel |
| HandScore.RoyalFlushIff | backend/poker_engine/hand_evaluator.py:74-75 | Royal Flush exactly when the cards are suited 10-J-Q-K-A |
| HandScore.WheelStraightFlush | backend/poker_engine/hand_evaluator.py:69-76 | a suited A-2-3-4-5 scores Straight Flush with kickers 5,4,3,2,1 |
| HandScore.NoFiveOfARank | backend/poker_engine/hand_evaluator.py:64 | distinct cards never hold one rank five times |
| HandScore.DistinctKickers | backend/poker_engine/hand_evaluator.py:88-89 | for distinct cards, Flush and High Card kickers strictly descend |
| HandScore.RankValuesPermutation | backend/poker_engine/hand_evaluator.py:62 | reordering the cards reorders their ranks |
| HandScore.ScoreFivePermutation | backend/poker_engine/hand_evaluator.py:59-109 | the score does not depend on the order of the five cards |
| HandEvaluator.Combinations | backend/poker_engine/hand_evaluator.py:50 | every combination has `k` elements |
| HandEvaluator.CombinationsCount | backend/poker_engine/hand_evaluator.py:50 | there are n-choose-k combinations |
| HandEvaluator.SevenCardsGiveTwentyOne | backend/poker_engine/hand_evaluator.py:50 | seven cards give 21 five-card hands |
| HandEvaluator.CombinationsSub | backend/poker_engine/hand_evaluator.py:50 | every combination is drawn from the input |
| HandEvaluator.CombinationsComplete | backend/poker_engine/hand_evaluator.py:50 | every sub-multiset of size `k` appears as a combination |
| HandEvaluator.BestOf | backend/poker_engine/hand_evaluator.py:47-57 | the result is the start or one hand's score, and no hand and not the start beats it |
| HandEvaluator.GetBestHand | backend/poker_engine/hand_evaluator.py:45-57 | the loop over all combinations returns `BestOf` of them from (-1, []) |
| HandEvaluator.Evaluate | backend/poker_engine/hand_evaluator.py:33-43 | fewer than five cards give (0, []); otherwise one combination's score that none beats |
| HandEvaluator.HandValueBest | backend/poker_engine/hand_evaluator.py:33-57 | the hand value is reached by a combination and beaten by none |
| HandEvaluator.HandValueMax | backend/poker_engine/hand_evaluator.py:33-57 | no five cards drawn from the input beat the hand value |
| HandEvaluator.HandValueReached | backend/poker_engine/hand_evaluator.py:33-57 | some five cards drawn from the input score exactly the hand value |
| HandEvaluator.HandValuePermutation | backend/poker_engine/hand_evaluator.py:33-57 | the hand value does not depend on card order |
| Engine.Player.constructor | backend/poker_engine/game.py:6-12 | a new player holds the chips, no cards, no bet, not folded, not all-in |
| Engine.Player.ResetForRound | backend/poker_engine/game.py:14-18 | hand, bet, fold and all-in are reset; name and chips kept |
| Engine.Game.constructor | backend/poker_engine/game.py:21-31 | a new table: no players, shuffled pack, empty pot and board, PREFLOP, inactive |
| Engine.Game.AddPlayer | backend/poker_engine/game.py:33-36 | follows `AddPlayerSpec` and keeps `Valid()` |
| GameLemmas.AddPlayerFacts | backend/poker_engine/game.py:33-36 | a seated name changes nothing; a new name is appended last with its chips; either way the name is seated and names stay unique |
| Engine.Game.PostBet | backend/poker_engine/game.py:69-76 | follows `PostBetSpec` on the given seat and the pot |
| GameLemmas.PostBetFacts | backend/poker_engine/game.py:69-76 | posts the amount capped at the stack; all-in exactly when the stack was short; chips move to bet and pot; other seats unchanged |
| GameLemmas.PostBetConserves | backend/poker_engine/game.py:69-76 | chips plus pot are unchanged by a posting |
| Engine.Game.StartRound | backend/poker_engine/game.py:38-67 | follows `StartRoundSpec` on the reshuffled pack and keeps `Valid()` |
| Engine.Game.ResetTable | backend/poker_engine/game.py:42-50 | active, reset deck, empty board and pot, bet 0, PREFLOP, dealer moved one seat |
| Engine.Game.DealHoleCards | backend/poker_engine/game.py:53-55 | the dealing loop computes `DealFrom`: seats, deck and success |
| Engine.Game.DealPlayer | backend/poker_engine/game.py:54-55 | resets one player and gives two cards, or fails with the deck untouched |
| Engine.Game.PostBlinds | backend/poker_engine/game.py:59-67 | follows `GameSpec.PostBlinds` |
| Engine.Game.DealAndPostBlinds | backend/poker_engine/game.py:53-67 | deals to every seat then posts blinds, or stops with the deck-exhausted error |
| GameLemmas.DealFromFacts | backend/poker_engine/game.py:53-55 | names and chips kept; succeeds exactly with two cards per seat; each seat reset with two cards, all taken from the deck |
| GameLemmas.DealtTable | backend/poker_engine/game.py:42-55 | after the reset, dealing takes two cards per seat from the pack, which hands and deck then share |
| GameLemmas.PostBlindsFacts | backend/poker_engine/game.py:59-67 | small and big blind seats differ; each posts 10 or 20 capped; others untouched; chips plus pot kept; bet 20; turn after the big blind |
| GameLemmas.PostBlindsCards | backend/poker_engine/game.py:59-67 | posting blinds moves no card and changes no stage or fold |
| GameLemmas.StartRoundOutcome | backend/poker_engine/game.py:38-67 | nothing happens with under two players; it fails exactly when the pack cannot deal two per seat; names kept; the old pot is discarded |
| GameLemmas.StartRoundInv | backend/poker_engine/game.py:38-67 | the table invariant survives a new round |
| GameLemmas.StartRoundDeal | backend/poker_engine/game.py:42-55 | dealer moves one seat; PREFLOP, empty board, active; every seat two cards, unfolded; every card of the pack in exactly one place |
| GameLemmas.StartRoundBlinds | backend/poker_engine/game.py:57-67 | bets, stacks, all-in flags and pot after the blinds, the bet at 20 and the turn after the big blind |
| GameLemmas.HeadsUpBlinds | backend/poker_engine/game.py:57-67 | with two players the dealer posts the big blind and the other seat posts the small blind and acts first |
| GameLemmas.HeadsUpStart | backend/poker_engine/game.py:38-67 | Alice and Bob at 1000: Bob deals, Alice posts 10 and acts, Bob posts 20 |
| Engine.Game.PlayerAction | backend/poker_engine/game.py:78-100 | follows `ActionSpec` and keeps `Valid()`; the state view comes back exactly on success |
| Engine.Game.Act | backend/poker_engine/game.py:84-96 | applies fold, call, raise or check to the seat in turn as `Acted` says |
| Engine.Game.FoldPlayer | backend/poker_engine/game.py:85 | only that seat's fold flag changes |
| GameLemmas.ActionRefusals | backend/poker_engine/game.py:80-96 | each refusal happens exactly under its condition and changes nothing; otherwise the action is applied and the turn moves |
| GameLemmas.RaiseEqualAccepted | backend/poker_engine/game.py:92-96 | a raise to exactly the current bet is accepted |
| GameLemmas.CallFacts | backend/poker_engine/game.py:86-88 | a call posts the difference to the table bet, capped at the stack, and touches nothing else |
| GameLemmas.RaiseFacts | backend/poker_engine/game.py:92-96 | a raise posts up to the amount, capped, and sets the table bet to the amount |
| GameLemmas.FoldFacts | backend/poker_engine/game.py:84-85 | a fold only marks the seat in turn folded |
| GameLemmas.ActedKeeps | backend/poker_engine/game.py:84-96 | an accepted action keeps turn, stage, cards, names, chips plus pot, and every invariant |
| GameLemmas.ActedInv | backend/poker_engine/game.py:84-96 | an accepted action keeps the table invariant |
| GameLemmas.ActionKeeps | backend/poker_engine/game.py:78-100 | any action keeps names, invariants and cards; chips plus pot kept until a showdown pays the pot out |
| GameLemmas.HeadsUpCall | backend/poker_engine/game.py:86-100 | Alice's call brings both bets to 20, pot 40, turn to Bob, still PREFLOP |
| GameLemmas.CallThenCheckStaysPreflop | backend/poker_engine/game.py:78-113 | after Alice calls and Bob checks the hand is still PREFLOP, board empty, turn back to Alice |
| Engine.Game.FindNextTurn | backend/poker_engine/game.py:104-110 | the search loop stops at `NextSeat`, or leaves the turn unchanged when no seat qualifies |
| Engine.Game.NextTurn | backend/poker_engine/game.py:102-113 | follows `NextTurnSpec` and keeps `Valid()` |
| GameSpec.NextSeat | backend/poker_engine/game.py:104-110 | a found seat is in range and neither folded nor all-in |
| GameLemmas.NextSeatFirst | backend/poker_engine/game.py:104-110 | the seat found is the first playable one going round; none is found exactly when none is playable |
| GameLemmas.NextTurnFacts | backend/poker_engine/game.py:102-113 | with a playable seat the turn moves to the first one after the current seat; otherwise the street advances |
| GameLemmas.NoTurnAdvances | backend/poker_engine/game.py:112-113 | no playable seat means the street advances |
| GameLemmas.NextTurnOutcome | backend/poker_engine/game.py:102-113 | moving the turn ends in success, an empty deck or a showdown with no winner |
| GameLemmas.NextTurnKeeps | backend/poker_engine/game.py:102-113 | names, invariants and cards kept; chips grow by the pot exactly at a paid showdown |
| Engine.Game.AdvanceStage | backend/poker_engine/game.py:115-136 | follows `AdvanceSpec` and keeps `Valid()` |
| Engine.Game.StreetThenReset | backend/poker_engine/game.py:115-136 | the street step followed, on success, by the betting reset |
| Engine.Game.StreetStep | backend/poker_engine/game.py:117-128 | follows `StageStep` for the current stage |
| Engine.Game.DealFlop | backend/poker_engine/game.py:117-119 | PREFLOP becomes FLOP with three dealt cards as the board |
| Engine.Game.DealStreetCard | backend/poker_engine/game.py:120-125 | FLOP or TURN moves on and appends one dealt card |
| Engine.Game.ResetBetting | backend/poker_engine/game.py:130-136 | table bet and every street bet go to 0; turn to the seat after the dealer |
| GameLemmas.DealOneStep | backend/poker_engine/game.py:120-125 | turn and river succeed exactly with a card in the deck, which is appended to the board |
| GameLemmas.AdvanceStreet | backend/poker_engine/game.py:115-128 | the stage moves on; when it fails; what the board and deck become; active cleared only by a paid showdown |
| GameLemmas.AdvanceReset | backend/poker_engine/game.py:130-136 | on success bets are 0 and the turn is left of the dealer; only bets and showdown chips change |
| GameLemmas.AdvanceInv | backend/poker_engine/game.py:115-136 | advancing keeps names and the table invariant |
| GameLemmas.AdvanceMoney | backend/poker_engine/game.py:115-157 | the pot stays; chips grow by the pot exactly at a paid showdown; the money invariant is kept |
| GameLemmas.StageMoney | backend/poker_engine/game.py:117-128 | the same for the street step alone |
| GameLemmas.AdvanceCards | backend/poker_engine/game.py:115-136 | advancing keeps every card of the pack in exactly one place |
| GameLemmas.StageCards | backend/poker_engine/game.py:117-128 | the street step only moves cards from the deck to the board |
| GameLemmas.NoCardTwice | backend/poker_engine/game.py:53-55 | where cards are conserved, each card is in exactly one of deck, hands and board |
| Engine.Game.ResolveWinner | backend/poker_engine/game.py:138-157 | follows `ResolveSpec` |
| Engine.Game.FindWinners | backend/poker_engine/game.py:140-150 | the ranking loop computes `Winners` |
| Engine.Game.PayWinners | backend/poker_engine/game.py:154-155 | the payout loop computes `Credit` |
| Engine.Game.CreditPlayer | backend/poker_engine/game.py:155 | one winner's chips grow by the share |
| GameLemmas.WinnersFacts | backend/poker_engine/game.py:140-150 | winners are in seat order, in range, exactly the unfolded seats with the best score; none exactly when all folded |
| GameLemmas.BestAmongBound | backend/poker_engine/game.py:144-150 | the running best is never beaten by an unfolded seat's score |
| GameLemmas.BestAmongReached | backend/poker_engine/game.py:144-150 | the running best is some unfolded seat's score, or (-1, []) if none |
| GameLemmas.WinnersUpToFacts | backend/poker_engine/game.py:144-150 | a seat is kept exactly when its score equals the final best |
| GameLemmas.CreditFacts | backend/poker_engine/game.py:153-155 | each winner gains the share, others nothing, nothing else changes; total grows by the shares |
| GameLemmas.PayoutFacts | backend/poker_engine/game.py:153-155 | splitting the pot evenly adds exactly the pot to the chips |
| GameLemmas.ResolveOutcome | backend/poker_engine/game.py:138-157 | it fails (division by zero) exactly when every seat folded, changing nothing |
| GameLemmas.ResolvePayout | backend/poker_engine/game.py:152-157 | on success each winner gains pot / winners, the table goes inactive, the pot stays |
| GameLemmas.ResolveMoney | backend/poker_engine/game.py:138-157 | resolving keeps the money invariant |
| GameLemmas.StateOfFacts | backend/poker_engine/game.py:159-173 | the view reports room, pot and stage name, the board as its cards' dictionaries, and for each seat in order its name, chips, bet, fold and its hole cards' dictionaries; exactly the seat in turn is marked |

## Left out

- Randomness: `random.shuffle` is the Fisher-Yates pass CPython runs. The
  random indices are a parameter (`draws`, with `draws[i] <= i`), so the
  model covers every possible shuffle but not the distribution.
- Chips, bets and the pot are Python floats; the model uses exact `real`,
  so rounding in the pot split is not modelled.
- Python exceptions are outcomes, each keeping the partial state the code
  leaves when it raises:
  - `ValueError` from dealing out of an empty deck;
  - `ZeroDivisionError` at a showdown where every seat folded;
  - `IndexError` from acting at an empty table.
- Dictionaries returned by `to_dict` and `get_state` are datatypes.
  - The `{"error": ...}` replies are refusal values whose texts are
    `GameSpec.RefusalMessage`.
  - An unknown action string changes no seat and still moves the turn, as
    in the code.
- Inputs are taken as given: the code validates no chip count or amount,
  and neither does the model (negative chips are accepted).
- `MoneyInv` (no negative stack, pot or bet):
  - It is kept by every player action, street advance and payout that
    starts from it (`GameLemmas.ActionKeeps`, `GameLemmas.AdvanceMoney`,
    `GameLemmas.ResolveMoney`). A successful `start_round` from stacks that
    are not negative establishes it (`GameLemmas.StartRoundBlinds`).
  - It is not part of `Valid()`, because two paths of the code break it.
    `add_player` accepts a negative stack. A `start_round` that runs out of
    cards (`game.py:53-55`) has already set the table bet to 0
    (`game.py:46`), while the seats it has not reached keep their old
    street bets.
  - `GameLemmas.ActedKeeps` requires a raise of at least the current bet,
    which the refusal at `game.py:93-94` guarantees.
- `Card.__lt__` is modelled and proved a strict total order. Nothing in the
  core sorts `Card` objects with it.
- `backend/poker_engine/manager.py` is not part of this model. Nor are
  `backend/main.py`, the HTTP and WebSocket handlers, the database and the
  frontend.
