/**
  What the operations of `GameSpec` keep and guarantee: unique seat
  names, chips conservation, street bets bounded by the table bet, no
  card duplicated, the turn order, the split of the pot.
 */
module GameLemmas {
  import opened Wrappers
  import opened Lists
  import opened Cards
  import opened Decks
  import opened HandScore
  import opened HandEvaluator
  import opened GameSpec

  // ---------------------------------------------------------------------
  // Names, indices and the table invariant

  predicate UniqueNames(seats: seq<Seat>)
  {
    forall i, j :: 0 <= i < j < |seats| ==> seats[i].username != seats[j].username
  }

  /** The same players in the same seats. */
  predicate SameNames(a: seq<Seat>, b: seq<Seat>)
  {
    |a| == |b| && forall i :: 0 <= i < |a| ==> a[i].username == b[i].username
  }

  /** The most community cards each stage can show. */
  function CommunityLimit(s: Stage): nat
  {
    match s
    case Preflop => 0
    case Flop => 3
    case Turn => 4
    case River => 5
    case Showdown => 5
  }

  /** What every operation keeps, whatever the outcome. */
  predicate TableInv(t: Table)
  {
    UniqueNames(t.seats) &&
    (t.turn == 0 || t.turn < |t.seats|) &&
    (t.dealer == 0 || t.dealer < |t.seats|) &&
    t.currentBet >= 0.0 &&
    |t.community| <= CommunityLimit(t.stage)
  }

  lemma SameNamesUnique(a: seq<Seat>, b: seq<Seat>)
    requires SameNames(a, b) && UniqueNames(a)
    ensures UniqueNames(b)
  {
  }

  /** A new game satisfies the invariant. */
  lemma NewTableInv(roomId: string, pack: seq<Card>)
    ensures TableInv(NewTable(roomId, pack))
  {
  }

  /** `add_player`: nothing changes when the name is seated; otherwise one seat more at the end. */
  lemma AddPlayerFacts(t: Table, username: string, chips: real)
    ensures var r := AddPlayerSpec(t, username, chips);
      (Seated(t.seats, username) ==> r == t) &&
      (!Seated(t.seats, username) ==>
         |r.seats| == |t.seats| + 1 && r.seats[..|t.seats|] == t.seats &&
         r.seats[|t.seats|] == NewSeat(username, chips) && r.(seats := t.seats) == t)
    ensures Seated(AddPlayerSpec(t, username, chips).seats, username)
    ensures TableInv(t) ==> TableInv(AddPlayerSpec(t, username, chips))
  {
    var r := AddPlayerSpec(t, username, chips);
    if !Seated(t.seats, username) {
      assert r.seats[|t.seats|].username == username;
    }
  }

  // ---------------------------------------------------------------------
  // _post_bet

  /**
    `_post_bet` takes the amount, or every chip when the seat is short and
    then marks it all-in; chips move from the seat to the pot and to the
    seat's street bet.
   */
  lemma PostBetFacts(t: Table, i: nat, amount: real)
    requires i < |t.seats|
    ensures var r := PostBetSpec(t, i, amount); var s := t.seats[i]; var a := Posted(s, amount);
      a == (if amount <= s.chips then amount else s.chips) &&
      r.seats[i].chips == s.chips - a && r.seats[i].bet == s.bet + a && r.pot == t.pot + a &&
      (r.seats[i].allIn <==> s.allIn || s.chips < amount) &&
      r.seats[i].chips + r.pot == s.chips + t.pot &&
      (0.0 <= amount && 0.0 <= s.chips ==> 0.0 <= a && 0.0 <= r.seats[i].chips) &&
      (forall j :: 0 <= j < |t.seats| && j != i ==> r.seats[j] == t.seats[j])
  {
  }

  // ---------------------------------------------------------------------
  // Chips

  function ChipsTotal(seats: seq<Seat>): real
  {
    if seats == [] then 0.0 else seats[0].chips + ChipsTotal(seats[1..])
  }

  lemma {:induction false} ChipsTotalUpdate(seats: seq<Seat>, i: nat, s: Seat)
    requires i < |seats|
    ensures ChipsTotal(seats[i := s]) == ChipsTotal(seats) - seats[i].chips + s.chips
  {
    if i > 0 {
      ChipsTotalUpdate(seats[1..], i - 1, s);
      assert seats[i := s][1..] == seats[1..][i - 1 := s];
    }
  }

  lemma {:induction false} ChipsTotalSame(a: seq<Seat>, b: seq<Seat>)
    requires |a| == |b| && forall i :: 0 <= i < |a| ==> a[i].chips == b[i].chips
    ensures ChipsTotal(a) == ChipsTotal(b)
  {
    if a != [] {
      ChipsTotalSame(a[1..], b[1..]);
    }
  }

  /** Chips and pot together are what they were after `_post_bet`. */
  lemma PostBetConserves(t: Table, i: nat, amount: real)
    requires i < |t.seats|
    ensures var r := PostBetSpec(t, i, amount); ChipsTotal(r.seats) + r.pot == ChipsTotal(t.seats) + t.pot
  {
    ChipsTotalUpdate(t.seats, i, PostBetSeat(t.seats[i], amount));
  }

  // ---------------------------------------------------------------------
  // Cards

  /** The cards held in the hands of seats `i..`. */
  function HandsFrom(seats: seq<Seat>, i: nat): multiset<Card>
    decreases |seats| - i
  {
    if i >= |seats| then multiset{} else multiset(seats[i].hand) + HandsFrom(seats, i + 1)
  }

  function HandCards(seats: seq<Seat>): multiset<Card>
  {
    HandsFrom(seats, 0)
  }

  /** Every card of the pack is in the deck, in a hand or on the board, exactly once. */
  predicate CardsConserved(t: Table)
  {
    multiset(t.deck) + HandCards(t.seats) + multiset(t.community) == multiset(FullDeck())
  }

  /** Hence no card is in two places, or twice in one. */
  lemma NoCardTwice(t: Table, c: Card)
    requires CardsConserved(t)
    ensures multiset(t.deck)[c] + HandCards(t.seats)[c] + multiset(t.community)[c] == 1
  {
    FullDeckExactlyOnce(c);
  }

  lemma {:induction false} HandsFromSame(a: seq<Seat>, b: seq<Seat>, i: nat)
    requires |a| == |b| && forall j :: i <= j < |a| ==> a[j].hand == b[j].hand
    ensures HandsFrom(a, i) == HandsFrom(b, i)
    decreases |a| - i
  {
    if i < |a| {
      HandsFromSame(a, b, i + 1);
    }
  }

  /** Seats that hold the same hands hold the same cards. */
  lemma HandCardsSame(a: seq<Seat>, b: seq<Seat>)
    requires |a| == |b| && forall j :: 0 <= j < |a| ==> a[j].hand == b[j].hand
    ensures HandCards(a) == HandCards(b)
  {
    HandsFromSame(a, b, 0);
  }

  // ---------------------------------------------------------------------
  // start_round

  /**
    The dealing loop keeps names and chips, leaves the seats before `i`
    alone, and succeeds exactly when the deck holds two cards per seat
    left; then each of those seats is reset and holds two cards, and the
    cards dealt plus the cards left are the deck it started from.
   */
  lemma DealFromFacts(seats: seq<Seat>, deck: seq<Card>, i: nat)
    requires i <= |seats|
    ensures var r := DealFrom(seats, deck, i);
      SameNames(seats, r.seats) &&
      (forall j :: 0 <= j < |seats| ==> r.seats[j].chips == seats[j].chips) &&
      (forall j :: 0 <= j < i ==> r.seats[j] == seats[j]) &&
      (r.ok <==> 2 * (|seats| - i) <= |deck|)
    ensures var r := DealFrom(seats, deck, i);
      r.ok ==>
        |r.deck| == |deck| - 2 * (|seats| - i) &&
        HandsFrom(r.seats, i) + multiset(r.deck) == multiset(deck) &&
        forall j :: i <= j < |seats| ==>
          |r.seats[j].hand| == 2 && r.seats[j] == ResetSeat(seats[j]).(hand := r.seats[j].hand)
  {
    DealFromKeeps(seats, deck, i);
    DealFromCards(seats, deck, i);
  }

  /** The dealing loop keeps names and chips and the seats before `i`, and succeeds when the deck suffices. */
  lemma {:induction false} DealFromKeeps(seats: seq<Seat>, deck: seq<Card>, i: nat)
    requires i <= |seats|
    ensures var r := DealFrom(seats, deck, i);
      SameNames(seats, r.seats) &&
      (forall j :: 0 <= j < |seats| ==> r.seats[j].chips == seats[j].chips) &&
      (forall j :: 0 <= j < i ==> r.seats[j] == seats[j]) &&
      (r.ok <==> 2 * (|seats| - i) <= |deck|)
    decreases |seats| - i
  {
    if i < |seats| && |deck| >= 2 {
      var s := ResetSeat(seats[i]).(hand := Dealt(deck, 2));
      var seats' := seats[i := s];
      DealSplits(deck, 2);
      DealFromKeeps(seats', Remaining(deck, 2), i + 1);
      assert DealFrom(seats, deck, i) == DealFrom(seats', Remaining(deck, 2), i + 1);
    }
  }

  /** A dealing loop that succeeds resets each seat from `i` on, gives it two cards, and loses no card. */
  lemma {:induction false} DealFromCards(seats: seq<Seat>, deck: seq<Card>, i: nat)
    requires i <= |seats|
    ensures var r := DealFrom(seats, deck, i);
      r.ok ==>
        |r.deck| == |deck| - 2 * (|seats| - i) &&
        HandsFrom(r.seats, i) + multiset(r.deck) == multiset(deck) &&
        forall j :: i <= j < |seats| ==>
          |r.seats[j].hand| == 2 && r.seats[j] == ResetSeat(seats[j]).(hand := r.seats[j].hand)
    decreases |seats| - i
  {
    if i < |seats| && |deck| >= 2 {
      var s := ResetSeat(seats[i]).(hand := Dealt(deck, 2));
      var seats' := seats[i := s];
      DealSplits(deck, 2);
      DealFromCards(seats', Remaining(deck, 2), i + 1);
      DealFromKeeps(seats', Remaining(deck, 2), i + 1);
      var r := DealFrom(seats', Remaining(deck, 2), i + 1);
      assert DealFrom(seats, deck, i) == r;
      assert r.seats[i] == s;
      assert HandsFrom(r.seats, i) == multiset(Dealt(deck, 2)) + HandsFrom(r.seats, i + 1);
    }
  }

  /** The table `start_round` deals to before the blinds, and whether the dealing succeeded. */
  lemma DealtTable(t: Table, pack: seq<Card>)
    requires |t.seats| >= 2
    ensures var t1 := Restart(t, pack); var d := DealFrom(t1.seats, t1.deck, 0);
      (d.ok <==> 2 * |t.seats| <= |pack|) &&
      SameNames(t.seats, d.seats) &&
      (forall j :: 0 <= j < |t.seats| ==> d.seats[j].chips == t.seats[j].chips) &&
      (d.ok ==> |d.deck| == |pack| - 2 * |t.seats| && HandCards(d.seats) + multiset(d.deck) == multiset(pack)) &&
      (d.ok ==> forall j :: 0 <= j < |t.seats| ==>
         |d.seats[j].hand| == 2 && d.seats[j] == ResetSeat(t.seats[j]).(hand := d.seats[j].hand))
  {
    DealFromFacts(t.seats, pack, 0);
  }

  /** Two seats to the left of one dealer are different seats whenever two or more play. */
  lemma BlindSeatsDistinct(d: nat, n: nat)
    requires d < n && n >= 2
    ensures (d + 1) % n != (d + 2) % n
  {
    if d + 2 < n {
      ModSmall(d + 1, n);
      ModSmall(d + 2, n);
    } else if d + 2 == n {
      ModSmall(d + 1, n);
      ModWrap(d + 2, n);
    } else {
      ModWrap(d + 1, n);
      ModWrap(d + 2, n);
    }
  }

  lemma ModSmall(x: int, n: int)
    requires 0 <= x < n
    ensures x % n == x
  {
  }

  lemma ModWrap(x: int, n: int)
    requires n <= x < 2 * n
    ensures x % n == x - n
  {
  }

  /**
    The blinds: the small blind seat posts 10 and the big blind seat 20,
    each clamped to its chips; they are different seats; nothing else
    changes but the table bet, the pot and the turn.
   */
  lemma PostBlindsFacts(t: Table)
    requires |t.seats| >= 2 && t.dealer < |t.seats|
    ensures var r := PostBlinds(t); var sb, bb := SmallBlindSeat(t), BigBlindSeat(t);
      sb != bb && sb < |t.seats| && bb < |t.seats| &&
      r.seats[sb] == PostBetSeat(t.seats[sb], SmallBlind) &&
      r.seats[bb] == PostBetSeat(t.seats[bb], BigBlind) &&
      (forall j :: 0 <= j < |t.seats| && j != sb && j != bb ==> r.seats[j] == t.seats[j]) &&
      r.pot == t.pot + Posted(t.seats[sb], SmallBlind) + Posted(t.seats[bb], BigBlind) &&
      ChipsTotal(r.seats) + r.pot == ChipsTotal(t.seats) + t.pot &&
      r.currentBet == BigBlind && r.turn == (bb + 1) % |t.seats| &&
      r.(seats := t.seats, pot := t.pot, currentBet := t.currentBet, turn := t.turn) == t
  {
    BlindSeatsDistinct(t.dealer, |t.seats|);
    var t1 := PostBetSpec(t, SmallBlindSeat(t), SmallBlind);
    PostBetConserves(t, SmallBlindSeat(t), SmallBlind);
    PostBetConserves(t1, BigBlindSeat(t), BigBlind);
  }

  /** The blinds move no card and fold no seat. */
  lemma PostBlindsCards(t: Table)
    requires |t.seats| >= 2 && t.dealer < |t.seats|
    ensures var r := PostBlinds(t);
      r.deck == t.deck && r.community == t.community && r.stage == t.stage &&
      r.active == t.active && r.dealer == t.dealer &&
      (forall j :: 0 <= j < |t.seats| ==> r.seats[j].hand == t.seats[j].hand && r.seats[j].folded == t.seats[j].folded) &&
      HandCards(r.seats) == HandCards(t.seats)
  {
    PostBlindsFacts(t);
    HandCardsSame(t.seats, PostBlinds(t).seats);
  }

  /**
    Money stays sane: no negative stack, pot or street bet, and no street
    bet above the table bet, so what a call or a raise posts is never
    negative.
   */
  predicate MoneyInv(t: Table)
  {
    t.pot >= 0.0 &&
    forall j :: 0 <= j < |t.seats| ==> t.seats[j].chips >= 0.0 && 0.0 <= t.seats[j].bet <= t.currentBet
  }

  /**
    `start_round`: nothing with fewer than two players; otherwise it fails
    exactly when the deck cannot give every seat two cards; the names stay
    and the chips and pot before are the chips and pot after, except for
    the old pot, which the round discards.
   */
  lemma StartRoundOutcome(t: Table, pack: seq<Card>)
    ensures var r := StartRoundSpec(t, pack);
      (|t.seats| < 2 ==> r == Step(t, Ok)) &&
      (r.outcome == Ok || r.outcome == Raised(DeckExhausted)) &&
      (r.outcome == Ok <==> |t.seats| < 2 || 2 * |t.seats| <= |pack|) &&
      SameNames(t.seats, r.table.seats) &&
      (|t.seats| >= 2 ==> ChipsTotal(r.table.seats) + r.table.pot == ChipsTotal(t.seats)) &&
      (TableInv(t) ==> TableInv(r.table))
  {
    var r := StartRoundSpec(t, pack);
    var n := |t.seats|;
    if n >= 2 {
      DealtTable(t, pack);
      var t1 := Restart(t, pack);
      var d := DealFrom(t1.seats, t1.deck, 0);
      var t2 := t1.(seats := d.seats, deck := d.deck);
      ChipsTotalSame(t.seats, d.seats);
      if d.ok {
        PostBlindsFacts(t2);
        var r2 := PostBlinds(t2);
        assert SameNames(t2.seats, r2.seats) by {
          assert forall j :: 0 <= j < n ==> r2.seats[j].username == t2.seats[j].username;
        }
      }
      if TableInv(t) {
        SameNamesUnique(t.seats, r.table.seats);
      }
    }
  }

  /** `start_round` keeps the table invariant, whatever its outcome. */
  lemma StartRoundInv(t: Table, pack: seq<Card>)
    requires TableInv(t)
    ensures TableInv(StartRoundSpec(t, pack).table)
  {
    StartRoundOutcome(t, pack);
  }

  /**
    After a successful `start_round` with two or more players: the dealer
    is the next seat, every seat is reset and holds two cards, the deck has
    lost two cards per seat, and a full pack is still complete and free of
    duplicates in deck and hands.
   */
  lemma StartRoundDeal(t: Table, pack: seq<Card>)
    requires |t.seats| >= 2 && 2 * |t.seats| <= |pack|
    ensures var r := StartRoundSpec(t, pack).table; var n := |t.seats|;
      r.dealer == (t.dealer + 1) % n &&
      |r.deck| == |pack| - 2 * n &&
      r.stage == Preflop && r.community == [] && r.active &&
      (forall j :: 0 <= j < n ==> |r.seats[j].hand| == 2 && !r.seats[j].folded) &&
      HandCards(r.seats) + multiset(r.deck) == multiset(pack)
    ensures multiset(pack) == multiset(FullDeck()) ==>
      var r := StartRoundSpec(t, pack).table; CardsConserved(r) && |r.deck| == 52 - 2 * |t.seats|
  {
    DealtTable(t, pack);
    var t1 := Restart(t, pack);
    var d := DealFrom(t1.seats, t1.deck, 0);
    var t2 := t1.(seats := d.seats, deck := d.deck);
    assert StartRoundSpec(t, pack).table == PostBlinds(t2);
    PostBlindsCards(t2);
    if multiset(pack) == multiset(FullDeck()) {
      assert |pack| == |multiset(pack)| == |multiset(FullDeck())| == 52;
    }
  }

  /**
    The blinds of a successful `start_round`, with `d` the new dealer: the
    seat after `d` posts 10 and the one after that 20, each clamped to its
    chips and all-in exactly when short; the two are different seats; no
    other seat bets; the table bet is 20 and the seat after the big blind
    acts. Players who had no debt keep the money invariant.
   */
  lemma StartRoundBlinds(t: Table, pack: seq<Card>)
    requires |t.seats| >= 2 && 2 * |t.seats| <= |pack|
    ensures var r := StartRoundSpec(t, pack).table; var n := |t.seats|;
      var sb, bb := SmallBlindSeat(r), BigBlindSeat(r);
      sb != bb && sb < n && bb < n &&
      r.seats[sb].bet == Posted(t.seats[sb], SmallBlind) &&
      r.seats[sb].chips == t.seats[sb].chips - Posted(t.seats[sb], SmallBlind) &&
      r.seats[bb].bet == Posted(t.seats[bb], BigBlind) &&
      r.seats[bb].chips == t.seats[bb].chips - Posted(t.seats[bb], BigBlind) &&
      (forall j :: 0 <= j < n && j != sb && j != bb ==> r.seats[j].bet == 0.0 && r.seats[j].chips == t.seats[j].chips) &&
      (forall j :: 0 <= j < n ==>
         (r.seats[j].allIn <==> (j == sb && t.seats[j].chips < SmallBlind) || (j == bb && t.seats[j].chips < BigBlind))) &&
      r.pot == Posted(t.seats[sb], SmallBlind) + Posted(t.seats[bb], BigBlind) &&
      r.currentBet == BigBlind && r.turn == (bb + 1) % n
    ensures (forall j :: 0 <= j < |t.seats| ==> t.seats[j].chips >= 0.0) ==> MoneyInv(StartRoundSpec(t, pack).table)
  {
    DealtTable(t, pack);
    var t1 := Restart(t, pack);
    var d := DealFrom(t1.seats, t1.deck, 0);
    var t2 := t1.(seats := d.seats, deck := d.deck);
    PostBlindsFacts(t2);
    assert SmallBlindSeat(t2) == SmallBlindSeat(PostBlinds(t2));
    assert BigBlindSeat(t2) == BigBlindSeat(PostBlinds(t2));
  }

  /**
    Heads-up, the dealer posts the big blind, and the other player posts
    the small blind and acts first.
   */
  lemma HeadsUpBlinds(t: Table, pack: seq<Card>)
    requires |t.seats| == 2 && 4 <= |pack|
    ensures var r := StartRoundSpec(t, pack).table;
      r.dealer < 2 && BigBlindSeat(r) == r.dealer &&
      SmallBlindSeat(r) == 1 - r.dealer && r.turn == 1 - r.dealer
  {
    StartRoundDeal(t, pack);
    StartRoundBlinds(t, pack);
  }

  // ---------------------------------------------------------------------
  // _next_turn

  /** The seat `k` places after seat `from`, going round a table of `n`. */
  function Around(from: nat, k: nat, n: nat): nat
    requires n > 0
  {
    (from + k) % n
  }

  /** None of the first `k - 1` seats after `from` still acts. */
  predicate SkippedBefore(seats: seq<Seat>, from: nat, k: nat)
    requires |seats| > 0
  {
    forall k' :: 1 <= k' < k ==> !Playable(seats[Around(from, k', |seats|)])
  }

  lemma AroundShift(from: nat, k: nat, n: nat)
    requires from < n && k < n
    ensures Around(Around(from, 1, n), k, n) == Around(from, k + 1, n)
  {
    if from + 1 < n {
      ModSmall(from + 1, n);
    } else {
      ModWrap(from + 1, n);
      ModSmall(k, n);
      ModWrap(from + 1 + k, n);
    }
  }

  /** Moving the turn to another seat keeps the table invariant. */
  lemma TurnMoved(t: Table, j: nat)
    requires TableInv(t) && j < |t.seats|
    ensures TableInv(t.(turn := j))
  {
  }

  /** When no seat after the current one still acts, `_next_turn` is `_advance_stage`. */
  lemma NoTurnAdvances(t: Table)
    requires t.turn < |t.seats| && NextSeat(t.seats, t.turn, |t.seats|) == None
    ensures NextTurnSpec(t) == AdvanceSpec(t)
  {
    ModWrap(t.turn + |t.seats|, |t.seats|);
    assert t.(turn := (t.turn + |t.seats|) % |t.seats|) == t;
  }

  /** One more step round the table from the seat `k` places after `from`. */
  lemma AroundNext(from: nat, k: nat, n: nat)
    requires from < n && k < n
    ensures Around(Around(from, k, n), 1, n) == Around(from, k + 1, n)
  {
    if from + k < n {
      ModSmall(from + k, n);
    } else {
      ModWrap(from + k, n);
      ModSmall(from + k + 1 - n, n);
      ModWrap(from + k + 1, n);
    }
  }

  /**
    The loop of `_next_turn` finds the first seat after `from`, going
    round, that still acts, looking at no more than `rem` seats, and finds
    none exactly when none of those seats acts.
   */
  lemma {:induction false} NextSeatFirst(seats: seq<Seat>, from: nat, rem: nat)
    requires |seats| > 0 && from < |seats| && rem <= |seats|
    ensures NextSeat(seats, from, rem).Some? ==>
      exists k :: 1 <= k <= rem && NextSeat(seats, from, rem).value == Around(from, k, |seats|) &&
        SkippedBefore(seats, from, k)
    ensures NextSeat(seats, from, rem).None? <==>
      forall k :: 1 <= k <= rem ==> !Playable(seats[Around(from, k, |seats|)])
    decreases rem
  {
    var n := |seats|;
    if rem > 0 {
      var j := Around(from, 1, n);
      if !Playable(seats[j]) {
        NextSeatFirst(seats, j, rem - 1);
        forall k | 1 <= k < rem
          ensures Around(j, k, n) == Around(from, k + 1, n)
        {
          AroundShift(from, k, n);
        }
        if NextSeat(seats, j, rem - 1).Some? {
          var k :| 1 <= k <= rem - 1 && NextSeat(seats, j, rem - 1).value == Around(j, k, n) &&
            SkippedBefore(seats, j, k);
          assert SkippedBefore(seats, from, k + 1) by {
            forall k' | 1 <= k' < k + 1
              ensures !Playable(seats[Around(from, k', n)])
            {
              if k' > 1 {
                assert Around(j, k' - 1, n) == Around(from, k', n);
              }
            }
          }
        } else {
          forall k | 1 <= k <= rem
            ensures !Playable(seats[Around(from, k, n)])
          {
            if k > 1 {
              assert Around(j, k - 1, n) == Around(from, k, n);
            }
          }
        }
      }
    }
  }

  /**
    `_next_turn` moves the turn to the first seat after the current one
    that still acts, checking all the seats and changing nothing else;
    only when no seat acts does it advance the stage.
   */
  lemma NextTurnFacts(t: Table)
    requires t.turn < |t.seats|
    ensures var n := |t.seats|;
      (forall k :: 1 <= k <= n ==> !Playable(t.seats[Around(t.turn, k, n)])) ==> NextTurnSpec(t) == AdvanceSpec(t)
    ensures var r := NextTurnSpec(t); var n := |t.seats|;
      (exists k :: 1 <= k <= n && Playable(t.seats[Around(t.turn, k, n)])) ==>
        r.outcome == Ok && r.table == t.(turn := r.table.turn) && Playable(t.seats[r.table.turn]) &&
        exists k :: 1 <= k <= n && r.table.turn == Around(t.turn, k, n) && SkippedBefore(t.seats, t.turn, k)
  {
    var n := |t.seats|;
    NextSeatFirst(t.seats, t.turn, n);
    match NextSeat(t.seats, t.turn, n)
    case None => NoTurnAdvances(t);
    case Some(j) => assert NextTurnSpec(t) == Step(t.(turn := j), Ok);
  }

  // ---------------------------------------------------------------------
  // _resolve_winner

  /** A seat wins the showdown: it has not folded and no seat that has not folded holds a better hand. */
  predicate Wins(seats: seq<Seat>, community: seq<Card>, j: nat)
    requires j < |seats|
  {
    !seats[j].folded && SeatScore(seats[j], community) == BestAmong(Entries(seats, community), |seats|)
  }

  /** Seat numbers in increasing order. */
  predicate Increasing(w: seq<nat>)
  {
    forall a, c :: 0 <= a < c < |w| ==> w[a] < w[c]
  }

  lemma NotLessTransitive(a: Score, b: Score, c: Score)
    requires !ScoreLess(a, b) && !ScoreLess(b, c)
    ensures !ScoreLess(a, c)
  {
    ScoreLessTotal(a, b);
    ScoreLessTotal(b, c);
    if ScoreLess(b, a) && ScoreLess(a, c) {
      ScoreLessTransitive(b, a, c);
    }
  }

  /** No hand at the showdown ranks below the starting `best_rank` of `_resolve_winner`. */
  lemma EntriesAboveNoHand(seats: seq<Seat>, community: seq<Card>)
    ensures var e := Entries(seats, community);
      forall k :: 0 <= k < |e| && e[k].Some? ==> !ScoreLess(e[k].value, NoHand)
  {
  }

  /** `best_rank` after seats `0..i` is no worse than the hand of any of them that has not folded. */
  lemma {:induction false} BestAmongBound(e: seq<Option<Score>>, i: nat)
    requires i <= |e|
    ensures forall k :: 0 <= k < i && e[k].Some? ==> !ScoreLess(BestAmong(e, i), e[k].value)
  {
    if i > 0 {
      BestAmongBound(e, i - 1);
      var b := BestAmong(e, i - 1);
      if e[i - 1].Some? {
        var r := e[i - 1].value;
        var c := Better(b, r);
        ScoreLessIrreflexive(c);
        BetterBound(b, r, c);
        forall k | 0 <= k < i - 1 && e[k].Some?
          ensures !ScoreLess(c, e[k].value)
        {
          NotLessTransitive(c, b, e[k].value);
        }
      }
    }
  }

  /**
    `best_rank` after seats `0..i` is the hand of one of them that has not
    folded, unless all of them have folded, when it is still `(-1, [])`.
   */
  lemma {:induction false} BestAmongReached(e: seq<Option<Score>>, i: nat)
    requires i <= |e|
    requires forall k :: 0 <= k < |e| && e[k].Some? ==> !ScoreLess(e[k].value, NoHand)
    ensures (forall k :: 0 <= k < i ==> e[k].None?) ==> BestAmong(e, i) == NoHand
    ensures (exists k :: 0 <= k < i && e[k].Some?) ==>
      exists k :: 0 <= k < i && e[k].Some? && e[k].value == BestAmong(e, i)
  {
    if i > 0 {
      BestAmongReached(e, i - 1);
      var b := BestAmong(e, i - 1);
      if e[i - 1].Some? && !ScoreLess(b, e[i - 1].value) && !(exists k :: 0 <= k < i - 1 && e[k].Some?) {
        ScoreLessTotal(b, e[i - 1].value);
      }
    }
  }

  /**
    The loop of `_resolve_winner` over seats `0..i` collects, in seat
    order and each once, exactly the seats that have not folded and hold
    the best hand among them.
   */
  lemma {:induction false} WinnersUpToFacts(e: seq<Option<Score>>, i: nat)
    requires i <= |e|
    ensures Increasing(WinnersUpTo(e, i))
    ensures forall j :: 0 <= j < i ==>
      (j in WinnersUpTo(e, i) <==> e[j].Some? && e[j].value == BestAmong(e, i))
  {
    if i > 0 {
      WinnersUpToFacts(e, i - 1);
      WinnersInRange(e, i - 1);
      if e[i - 1].Some? {
        BestAmongBound(e, i - 1);
        var b, r := BestAmong(e, i - 1), e[i - 1].value;
        ScoreLessTotal(b, r);
        ScoreLessIrreflexive(b);
      }
    }
  }

  /**
    The winners are exactly the seats that win the showdown, in seat
    order, and there are none exactly when every seat has folded.
   */
  lemma WinnersFacts(seats: seq<Seat>, community: seq<Card>)
    ensures var w := Winners(seats, community);
      Increasing(w) &&
      (forall k :: 0 <= k < |w| ==> w[k] < |seats|) &&
      (forall j :: 0 <= j < |seats| ==> (j in w <==> Wins(seats, community, j))) &&
      (|w| == 0 <==> forall j :: 0 <= j < |seats| ==> seats[j].folded)
  {
    EntriesAboveNoHand(seats, community);
    EntriesWinners(Entries(seats, community));
  }

  /** The same for any ranked entries, folded seats being `None`. */
  lemma EntriesWinners(e: seq<Option<Score>>)
    requires forall k :: 0 <= k < |e| && e[k].Some? ==> !ScoreLess(e[k].value, NoHand)
    ensures var w := WinnersUpTo(e, |e|);
      Increasing(w) &&
      (forall k :: 0 <= k < |w| ==> w[k] < |e|) &&
      (forall j :: 0 <= j < |e| ==> (j in w <==> e[j].Some? && e[j].value == BestAmong(e, |e|))) &&
      (|w| == 0 <==> forall j :: 0 <= j < |e| ==> e[j].None?)
  {
    var w := WinnersUpTo(e, |e|);
    WinnersUpToFacts(e, |e|);
    WinnersInRange(e, |e|);
    BestAmongReached(e, |e|);
    if |w| > 0 {
      assert w[0] in w;
    }
  }

  /** The payout loop adds `share` to each listed seat and to no other. */
  lemma {:induction false} CreditAt(seats: seq<Seat>, w: seq<nat>, share: real, j: nat)
    requires forall k :: 0 <= k < |w| ==> w[k] < |seats|
    requires Increasing(w) && j < |seats|
    ensures Credit(seats, w, share)[j].chips == seats[j].chips + if j in w then share else 0.0
    decreases |w|
  {
    if w != [] {
      var i := w[0];
      var seats' := seats[i := seats[i].(chips := seats[i].chips + share)];
      CreditAt(seats', w[1..], share, j);
      assert j in w <==> j == i || j in w[1..];
    }
  }

  /** The payout loop changes nothing but chips. */
  lemma {:induction false} CreditOnlyChips(seats: seq<Seat>, w: seq<nat>, share: real, j: nat)
    requires forall k :: 0 <= k < |w| ==> w[k] < |seats|
    requires j < |seats|
    ensures Credit(seats, w, share)[j] == seats[j].(chips := Credit(seats, w, share)[j].chips)
    decreases |w|
  {
    if w != [] {
      var i := w[0];
      var seats' := seats[i := seats[i].(chips := seats[i].chips + share)];
      CreditOnlyChips(seats', w[1..], share, j);
    }
  }

  /** `n` shares added one at a time. */
  function Shares(n: nat, share: real): real
  {
    if n == 0 then 0.0 else Shares(n - 1, share) + share
  }

  /** Adding `n` shares one at a time is multiplying by `n`. */
  lemma {:induction false} SharesTimes(n: nat, share: real)
    ensures Shares(n, share) == (n as real) * share
  {
    if n > 0 {
      SharesTimes(n - 1, share);
      MulStep(n, share);
    }
  }

  /** The payout loop credits its first entry, then goes on with the rest. */
  lemma CreditHead(seats: seq<Seat>, w: seq<nat>, share: real)
    requires w != [] && forall k :: 0 <= k < |w| ==> w[k] < |seats|
    ensures Credit(seats, w, share) ==
      Credit(seats[w[0] := seats[w[0]].(chips := seats[w[0]].chips + share)], w[1..], share)
  {
  }

  /** The payout loop adds `share` to the chips on the table once per entry. */
  lemma {:induction false} CreditTotal(seats: seq<Seat>, w: seq<nat>, share: real)
    requires forall k :: 0 <= k < |w| ==> w[k] < |seats|
    ensures ChipsTotal(Credit(seats, w, share)) == ChipsTotal(seats) + Shares(|w|, share)
    decreases |w|
  {
    if w != [] {
      var i := w[0];
      var seats' := seats[i := seats[i].(chips := seats[i].chips + share)];
      assert Credit(seats, w, share) == Credit(seats', w[1..], share);
      CreditTotal(seats', w[1..], share);
      ChipsTotalUpdate(seats, i, seats'[i]);
    }
  }

  /** `n` shares are `n - 1` shares and one more. */
  lemma MulStep(n: nat, share: real)
    requires n > 0
    ensures (n as real) * share == ((n - 1) as real) * share + share
  {
  }

  /** `n` shares of a pot split `n` ways are the pot. */
  lemma ShareTotal(pot: real, n: nat, share: real)
    requires n > 0 && share == pot / (n as real)
    ensures Shares(n, share) == pot
  {
    SharesTimes(n, share);
  }

  /** The payout loop over increasing seat numbers, seat by seat and in total. */
  lemma CreditFacts(seats: seq<Seat>, w: seq<nat>, share: real)
    requires forall k :: 0 <= k < |w| ==> w[k] < |seats|
    requires Increasing(w)
    ensures var r := Credit(seats, w, share);
      ChipsTotal(r) == ChipsTotal(seats) + Shares(|w|, share) &&
      (forall j :: 0 <= j < |seats| ==> r[j].chips == seats[j].chips + if j in w then share else 0.0) &&
      (forall j :: 0 <= j < |seats| ==> r[j] == seats[j].(chips := r[j].chips))
  {
    CreditTotal(seats, w, share);
    CreditSeats(seats, w, share);
  }

  /** The payout loop over increasing seat numbers credits each winner once and changes nothing else. */
  lemma CreditSeats(seats: seq<Seat>, w: seq<nat>, share: real)
    requires forall k :: 0 <= k < |w| ==> w[k] < |seats|
    requires Increasing(w)
    ensures var r := Credit(seats, w, share);
      (forall j :: 0 <= j < |seats| ==> r[j].chips == seats[j].chips + if j in w then share else 0.0) &&
      (forall j :: 0 <= j < |seats| ==> r[j] == seats[j].(chips := r[j].chips))
  {
    forall j | 0 <= j < |seats|
      ensures Credit(seats, w, share)[j].chips == seats[j].chips + if j in w then share else 0.0
      ensures Credit(seats, w, share)[j] == seats[j].(chips := Credit(seats, w, share)[j].chips)
    {
      CreditAt(seats, w, share, j);
      CreditOnlyChips(seats, w, share, j);
    }
  }

  /** The winners are seats, listed once each, and there are none exactly when every seat has folded. */
  lemma WinnersShape(seats: seq<Seat>, community: seq<Card>)
    ensures var w := Winners(seats, community);
      Increasing(w) &&
      (forall k :: 0 <= k < |w| ==> w[k] < |seats|) &&
      (|w| == 0 <==> forall j :: 0 <= j < |seats| ==> seats[j].folded)
  {
    WinnersFacts(seats, community);
  }

  /** `_resolve_winner` fails, dividing by zero, exactly when every seat has folded, and then changes nothing. */
  lemma ResolveOutcome(t: Table)
    ensures var r := ResolveSpec(t);
      (r.outcome == Ok || r.outcome == Raised(NoWinner)) &&
      (r.outcome == Raised(NoWinner) <==> forall j :: 0 <= j < |t.seats| ==> t.seats[j].folded) &&
      (r.outcome == Raised(NoWinner) ==> r.table == t)
  {
    WinnersShape(t.seats, t.community);
  }

  /**
    A successful `_resolve_winner`: every winner (see `WinnersFacts`) gains
    the pot divided by the number of winners, every other seat is
    unchanged, the chips on the table grow by the pot, the pot itself
    stays as it was and the round is over.
   */
  lemma ResolvePayout(t: Table)
    ensures var r := ResolveSpec(t); var w := Winners(t.seats, t.community);
      r.outcome == Ok ==>
        r.table == t.(seats := r.table.seats, active := false) &&
        ChipsTotal(r.table.seats) == ChipsTotal(t.seats) + t.pot &&
        (forall j :: 0 <= j < |t.seats| ==>
           r.table.seats[j].chips == t.seats[j].chips + if j in w then t.pot / (|w| as real) else 0.0) &&
        (forall j :: 0 <= j < |t.seats| ==> r.table.seats[j] == t.seats[j].(chips := r.table.seats[j].chips))
  {
    var w := Winners(t.seats, t.community);
    WinnersShape(t.seats, t.community);
    if |w| > 0 {
      assert ResolveSpec(t) == Step(t.(seats := Credit(t.seats, w, t.pot / (|w| as real)), active := false), Ok);
      PayoutFacts(t.seats, w, t.pot);
    }
  }

  /** The pot split evenly among increasing seat numbers, seat by seat and in total. */
  lemma PayoutFacts(seats: seq<Seat>, w: seq<nat>, pot: real)
    requires |w| > 0 && Increasing(w) && forall k :: 0 <= k < |w| ==> w[k] < |seats|
    ensures var share := pot / (|w| as real); var r := Credit(seats, w, share);
      ChipsTotal(r) == ChipsTotal(seats) + pot &&
      (forall j :: 0 <= j < |seats| ==> r[j].chips == seats[j].chips + if j in w then share else 0.0) &&
      (forall j :: 0 <= j < |seats| ==> r[j] == seats[j].(chips := r[j].chips))
  {
    var share := pot / (|w| as real);
    CreditFacts(seats, w, share);
    ShareTotal(pot, |w|, share);
  }

  // ---------------------------------------------------------------------
  // _advance_stage

  /** The order of the streets; the showdown is the last. */
  function NextStage(s: Stage): Stage
  {
    match s
    case Preflop => Flop
    case Flop => Turn
    case Turn => River
    case River => Showdown
    case Showdown => Showdown
  }

  /** The flop: the last three cards of the deck replace the board, or the deck runs out. */
  lemma FlopStep(t: Table)
    requires t.stage == Preflop
    ensures var s := StageStep(t);
      (s.outcome == Ok <==> |t.deck| >= 3) && (s.outcome != Ok ==> s == Step(t.(stage := Flop), Raised(DeckExhausted))) &&
      (s.outcome == Ok ==> s.table == t.(stage := Flop, community := Dealt(t.deck, 3), deck := Remaining(t.deck, 3)))
  {
  }

  /** The turn and the river: the last card of the deck joins the board, or the deck runs out. */
  lemma DealOneStep(t: Table)
    requires t.stage == Flop || t.stage == Turn
    ensures var s := StageStep(t); var u := t.(stage := NextStage(t.stage));
      (s.outcome == Ok <==> |t.deck| >= 1) && (s.outcome != Ok ==> s == Step(u, Raised(DeckExhausted))) &&
      (s.outcome == Ok ==>
         s.table == u.(community := t.community + [t.deck[|t.deck| - 1]], deck := t.deck[..|t.deck| - 1]))
  {
    if |t.deck| >= 1 {
      DealSplits(t.deck, 1);
    }
  }

  /** The showdown street resolves the winners. */
  lemma ShowdownStep(t: Table)
    requires t.stage == River
    ensures StageStep(t) == ResolveSpec(t.(stage := Showdown))
  {
  }

  /** `_advance_stage` is its street step followed, when that succeeds, by the betting reset. */
  lemma AdvanceOfStep(t: Table)
    requires |t.seats| > 0
    ensures var s, r := StageStep(t), AdvanceSpec(t);
      r.outcome == s.outcome &&
      (s.outcome != Ok ==> r.table == s.table) &&
      (s.outcome == Ok ==>
         r.table == s.table.(currentBet := 0.0, seats := ZeroBets(s.table.seats), turn := (t.dealer + 1) % |t.seats|))
  {
  }

  /** The street step of each stage, and the betting reset after it. */
  lemma StreetFacts(t: Table)
    requires |t.seats| > 0
    ensures var s := StageStep(t);
      (t.stage == Preflop ==>
         (s.outcome == Ok <==> |t.deck| >= 3) &&
         (s.outcome != Ok ==> s == Step(t.(stage := Flop), Raised(DeckExhausted))) &&
         (s.outcome == Ok ==> s.table == t.(stage := Flop, community := Dealt(t.deck, 3), deck := Remaining(t.deck, 3)))) &&
      ((t.stage == Flop || t.stage == Turn) ==>
         (s.outcome == Ok <==> |t.deck| >= 1) &&
         (s.outcome != Ok ==> s == Step(t.(stage := NextStage(t.stage)), Raised(DeckExhausted))) &&
         (s.outcome == Ok ==> s.table == t.(stage := NextStage(t.stage),
            community := t.community + [t.deck[|t.deck| - 1]], deck := t.deck[..|t.deck| - 1]))) &&
      (t.stage == River ==> s == ResolveSpec(t.(stage := Showdown))) &&
      (t.stage == Showdown ==> s == Step(t, Ok))
    ensures var s, r := StageStep(t), AdvanceSpec(t);
      r.outcome == s.outcome &&
      (s.outcome != Ok ==> r.table == s.table) &&
      (s.outcome == Ok ==>
         r.table == s.table.(currentBet := 0.0, seats := ZeroBets(s.table.seats), turn := (t.dealer + 1) % |t.seats|))
  {
    AdvanceOfStep(t);
    match t.stage
    case Preflop => FlopStep(t);
    case Flop => DealOneStep(t);
    case Turn => DealOneStep(t);
    case River => ShowdownStep(t);
    case Showdown =>
  }

  /**
    `_advance_stage` moves to the next street: the flop replaces the board
    with the last three cards of the deck, the turn and the river each add
    the last card, the river goes to the showdown and pays out, and a
    showdown stays as it is. It fails when the deck runs out or, at the
    showdown, when everyone has folded.
   */
  lemma AdvanceStreet(t: Table)
    requires |t.seats| > 0
    ensures var r := AdvanceSpec(t);
      (r.outcome == Ok || r.outcome == Raised(DeckExhausted) || r.outcome == Raised(NoWinner)) &&
      r.table.stage == NextStage(t.stage) && r.table.dealer == t.dealer && r.table.roomId == t.roomId &&
      r.table.pot == t.pot &&
      (r.outcome == Raised(DeckExhausted) <==>
         (t.stage == Preflop && |t.deck| < 3) || ((t.stage == Flop || t.stage == Turn) && |t.deck| == 0)) &&
      (r.outcome == Raised(NoWinner) <==> t.stage == River && forall j :: 0 <= j < |t.seats| ==> t.seats[j].folded) &&
      (r.table.active <==> t.active && !(t.stage == River && r.outcome == Ok))
    ensures var r := AdvanceSpec(t);
      r.outcome == Ok ==>
        (t.stage == Preflop ==> r.table.community == Dealt(t.deck, 3) && r.table.deck == Remaining(t.deck, 3)) &&
        ((t.stage == Flop || t.stage == Turn) ==>
           r.table.community == t.community + [t.deck[|t.deck| - 1]] && r.table.deck == t.deck[..|t.deck| - 1]) &&
        ((t.stage == River || t.stage == Showdown) ==> r.table.community == t.community && r.table.deck == t.deck)
  {
    StreetFacts(t);
    if t.stage == River {
      ResolveOutcome(t.(stage := Showdown));
      ResolvePayout(t.(stage := Showdown));
    }
  }

  /**
    After a successful `_advance_stage` the table bet and every street bet
    are zero and the turn is left of the dealer; before the showdown only
    the bets change in the seats, at the showdown only chips and bets.
   */
  lemma AdvanceReset(t: Table)
    requires |t.seats| > 0
    ensures var r := AdvanceSpec(t);
      r.outcome == Ok ==>
        r.table.currentBet == 0.0 && r.table.turn == (t.dealer + 1) % |t.seats| &&
        forall j :: 0 <= j < |t.seats| ==> r.table.seats[j].bet == 0.0
    ensures var r := AdvanceSpec(t);
      t.stage != River ==> forall j :: 0 <= j < |t.seats| ==> r.table.seats[j] == t.seats[j].(bet := r.table.seats[j].bet)
    ensures var r := AdvanceSpec(t);
      forall j :: 0 <= j < |t.seats| ==>
        r.table.seats[j] == t.seats[j].(bet := r.table.seats[j].bet, chips := r.table.seats[j].chips)
  {
    StreetFacts(t);
    if t.stage == River {
      ResolvePayout(t.(stage := Showdown));
    }
  }

  /** `_advance_stage` keeps the table invariant and the seat names, whatever its outcome. */
  lemma AdvanceInv(t: Table)
    requires |t.seats| > 0 && TableInv(t) && t.turn < |t.seats|
    ensures SameNames(t.seats, AdvanceSpec(t).table.seats) && TableInv(AdvanceSpec(t).table)
  {
    AdvanceStreet(t);
    AdvanceReset(t);
    if |t.deck| >= 3 {
      DealSplits(t.deck, 3);
    }
    SameNamesUnique(t.seats, AdvanceSpec(t).table.seats);
  }

  /** Paying out a share that is not negative keeps the money invariant. */
  lemma CreditMoney(t: Table, w: seq<nat>, share: real)
    requires forall k :: 0 <= k < |w| ==> w[k] < |t.seats|
    requires Increasing(w) && MoneyInv(t) && share >= 0.0
    ensures MoneyInv(t.(seats := Credit(t.seats, w, share), active := false))
  {
    CreditSeats(t.seats, w, share);
  }

  /** The payout keeps the money invariant. */
  lemma ResolveMoney(t: Table)
    requires MoneyInv(t)
    ensures MoneyInv(ResolveSpec(t).table)
  {
    var w := Winners(t.seats, t.community);
    WinnersShape(t.seats, t.community);
    if |w| > 0 {
      CreditMoney(t, w, t.pot / (|w| as real));
    }
  }

  /** The street step keeps the pot and, but for the payout at the showdown, every seat's chips. */
  lemma StageMoney(t: Table)
    ensures var s := StageStep(t);
      s.table.pot == t.pot && s.table.currentBet == t.currentBet &&
      ChipsTotal(s.table.seats) == ChipsTotal(t.seats) + (if t.stage == River && s.outcome == Ok then t.pot else 0.0) &&
      (MoneyInv(t) ==> MoneyInv(s.table))
  {
    if t.stage == River {
      ShowdownStep(t);
      var u := t.(stage := Showdown);
      ResolvePayout(u);
      if MoneyInv(t) {
        ResolveMoney(u);
      }
    } else if t.stage == Preflop {
      FlopStep(t);
    } else if t.stage != Showdown {
      DealOneStep(t);
    }
  }

  /**
    `_advance_stage` keeps the money invariant and the pot; the chips on
    the table grow by the pot exactly when the showdown pays out, and stay
    the same otherwise.
   */
  lemma AdvanceMoney(t: Table)
    requires |t.seats| > 0
    ensures var r := AdvanceSpec(t);
      r.table.pot == t.pot &&
      ChipsTotal(r.table.seats) == ChipsTotal(t.seats) + (if t.stage == River && r.outcome == Ok then t.pot else 0.0) &&
      (MoneyInv(t) ==> MoneyInv(r.table))
  {
    var s := StageStep(t);
    AdvanceOfStep(t);
    StageMoney(t);
    if s.outcome == Ok {
      ChipsTotalSame(ZeroBets(s.table.seats), s.table.seats);
    }
  }

  /** The street step moves cards from the deck to the board, and leaves the hands alone. */
  lemma StageCards(t: Table)
    requires t.stage == Preflop ==> t.community == []
    ensures var s := StageStep(t).table;
      multiset(s.deck) + multiset(s.community) == multiset(t.deck) + multiset(t.community) &&
      |s.seats| == |t.seats| && forall j :: 0 <= j < |t.seats| ==> s.seats[j].hand == t.seats[j].hand
  {
    if t.stage == River {
      ShowdownStep(t);
      ResolvePayout(t.(stage := Showdown));
    } else if t.stage == Preflop {
      FlopCards(t);
    } else if t.stage != Showdown {
      TurnCards(t);
    }
  }

  /** The flop moves three cards from the deck to the empty board. */
  lemma FlopCards(t: Table)
    requires t.stage == Preflop && t.community == []
    ensures var s := StageStep(t).table;
      multiset(s.deck) + multiset(s.community) == multiset(t.deck) + multiset(t.community) &&
      s.seats == t.seats
  {
    FlopStep(t);
    if |t.deck| >= 3 {
      DealSplits(t.deck, 3);
    }
  }

  /** The turn and the river move one card from the deck to the board. */
  lemma TurnCards(t: Table)
    requires t.stage == Flop || t.stage == Turn
    ensures var s := StageStep(t).table;
      multiset(s.deck) + multiset(s.community) == multiset(t.deck) + multiset(t.community) &&
      s.seats == t.seats
  {
    DealOneStep(t);
    if |t.deck| >= 1 {
      assert t.deck == t.deck[..|t.deck| - 1] + [t.deck[|t.deck| - 1]];
    }
  }

  /** `_advance_stage` moves cards from the deck to the board and loses none. */
  lemma AdvanceCards(t: Table)
    requires |t.seats| > 0 && TableInv(t) && CardsConserved(t)
    ensures CardsConserved(AdvanceSpec(t).table)
  {
    var s, r := StageStep(t).table, AdvanceSpec(t).table;
    AdvanceOfStep(t);
    StageCards(t);
    assert r.deck == s.deck && r.community == s.community;
    HandCardsSame(t.seats, s.seats);
    HandCardsSame(s.seats, r.seats);
    assert HandCards(r.seats) == HandCards(t.seats);
    calc {
      multiset(r.deck) + HandCards(r.seats) + multiset(r.community);
      (multiset(s.deck) + multiset(s.community)) + HandCards(t.seats);
      multiset(t.deck) + HandCards(t.seats) + multiset(t.community);
    }
  }

  // ---------------------------------------------------------------------
  // player_action

  /** `_next_turn` ends well, or with the deck run out, or with nobody left to pay. */
  lemma NextTurnOutcome(t: Table)
    requires |t.seats| > 0
    ensures var r := NextTurnSpec(t); r.outcome == Ok || r.outcome == Raised(DeckExhausted) || r.outcome == Raised(NoWinner)
  {
    AdvanceStreet(t.(turn := (t.turn + |t.seats|) % |t.seats|));
  }

  /**
    `player_action` fails with `IndexError` exactly when there is no seat
    at the turn, and refuses exactly when the name is not the one at the
    turn, when a check faces a higher table bet, or when a raise is below
    the table bet; in all these cases nothing changes, not even the turn.
    Otherwise it performs the action and then `_next_turn`.
   */
  lemma ActionRefusals(t: Table, username: string, action: Action, amount: real)
    ensures var r := ActionSpec(t, username, action, amount); var on := t.turn < |t.seats|;
      (r.outcome == Raised(NoSeat) <==> !on) &&
      (r.outcome == Refused(NotYourTurn) <==> on && t.seats[t.turn].username != username) &&
      (r.outcome == Refused(MustCall) <==>
         on && t.seats[t.turn].username == username && action == Check && t.seats[t.turn].bet < t.currentBet) &&
      (r.outcome == Refused(RaiseTooSmall) <==>
         on && t.seats[t.turn].username == username && action == Raise && amount < t.currentBet) &&
      ((r.outcome.Refused? || r.outcome == Raised(NoSeat)) ==> r.table == t)
    ensures var r := ActionSpec(t, username, action, amount);
      !r.outcome.Refused? && r.outcome != Raised(NoSeat) ==>
        t.turn < |t.seats| && r == NextTurnSpec(Acted(t, action, amount))
  {
    if t.turn < |t.seats| {
      NextTurnOutcome(Acted(t, action, amount));
    }
  }

  /** A raise to exactly the table bet is accepted: the check is "below", not "not above". */
  lemma RaiseEqualAccepted(t: Table, username: string)
    requires t.turn < |t.seats| && t.seats[t.turn].username == username
    ensures var r := ActionSpec(t, username, Raise, t.currentBet);
      !r.outcome.Refused? && r == NextTurnSpec(Acted(t, Raise, t.currentBet))
  {
    ActionRefusals(t, username, Raise, t.currentBet);
  }

  /**
    A call posts the difference to the table bet, or every chip left when
    that is more than the seat has, and goes all-in then; nothing else
    changes but the pot.
   */
  lemma CallFacts(t: Table, amount: real)
    requires t.turn < |t.seats|
    ensures var r := Acted(t, Call, amount); var p, q := t.seats[t.turn], r.seats[t.turn];
      var owed := t.currentBet - p.bet;
      q.bet == (if p.chips < owed then p.bet + p.chips else t.currentBet) &&
      q.chips == (if p.chips < owed then 0.0 else p.chips - owed) &&
      (q.allIn <==> p.allIn || p.chips < owed) &&
      q == p.(bet := q.bet, chips := q.chips, allIn := q.allIn) &&
      r.pot == t.pot + (q.bet - p.bet) &&
      r == t.(seats := r.seats, pot := r.pot) &&
      forall j :: 0 <= j < |t.seats| && j != t.turn ==> r.seats[j] == t.seats[j]
  {
  }

  /**
    A raise to `amount` posts the difference between `amount` and the
    seat's street bet, or every chip left when short, and makes `amount`
    the table bet.
   */
  lemma RaiseFacts(t: Table, amount: real)
    requires t.turn < |t.seats|
    ensures var r := Acted(t, Raise, amount); var p, q := t.seats[t.turn], r.seats[t.turn];
      var owed := amount - p.bet;
      q.bet == (if p.chips < owed then p.bet + p.chips else amount) &&
      q.chips == (if p.chips < owed then 0.0 else p.chips - owed) &&
      (q.allIn <==> p.allIn || p.chips < owed) &&
      q == p.(bet := q.bet, chips := q.chips, allIn := q.allIn) &&
      r.pot == t.pot + (q.bet - p.bet) && r.currentBet == amount &&
      r == t.(seats := r.seats, pot := r.pot, currentBet := amount) &&
      forall j :: 0 <= j < |t.seats| && j != t.turn ==> r.seats[j] == t.seats[j]
  {
  }

  /** A fold marks the seat folded and nothing else. */
  lemma FoldFacts(t: Table, amount: real)
    requires t.turn < |t.seats|
    ensures var r := Acted(t, Fold, amount);
      r == t.(seats := r.seats) && |r.seats| == |t.seats| &&
      r.seats[t.turn] == t.seats[t.turn].(folded := true) &&
      forall j :: 0 <= j < |t.seats| && j != t.turn ==> r.seats[j] == t.seats[j]
  {
  }

  /**
    From `t` to `r` the turn, the stage, the deck and the board stay, the
    seats keep their names, chips and pot together stay the same, and the
    invariants and the cards are kept.
   */
  predicate KeptBy(t: Table, r: Table)
  {
    r.turn == t.turn && r.stage == t.stage && r.deck == t.deck && r.community == t.community &&
    SameNames(t.seats, r.seats) &&
    ChipsTotal(r.seats) + r.pot == ChipsTotal(t.seats) + t.pot &&
    (TableInv(t) ==> TableInv(r)) &&
    (MoneyInv(t) ==> MoneyInv(r)) &&
    (CardsConserved(t) ==> CardsConserved(r))
  }

  lemma FoldKeeps(t: Table, amount: real)
    requires t.turn < |t.seats|
    ensures KeptBy(t, Acted(t, Fold, amount))
  {
    var r := Acted(t, Fold, amount);
    ChipsTotalUpdate(t.seats, t.turn, t.seats[t.turn].(folded := true));
    HandCardsSame(t.seats, r.seats);
    if TableInv(t) {
      SameNamesUnique(t.seats, r.seats);
    }
  }

  lemma CallKeeps(t: Table, amount: real)
    requires t.turn < |t.seats|
    ensures KeptBy(t, Acted(t, Call, amount))
  {
    assert Acted(t, Call, amount) == BetTo(t, t.currentBet);
    BetKeeps(t, t.currentBet);
  }

  lemma RaiseKeeps(t: Table, amount: real)
    requires t.turn < |t.seats| && amount >= t.currentBet
    ensures KeptBy(t, Acted(t, Raise, amount))
  {
    assert Acted(t, Raise, amount) == BetTo(t, amount);
    BetKeeps(t, amount);
  }

  /** A call or a raise: the player in turn brings its street bet up to `target`, which becomes the bet to match. */
  function BetTo(t: Table, target: real): Table
    requires t.turn < |t.seats|
  {
    PostBetSpec(t, t.turn, target - t.seats[t.turn].bet).(currentBet := target)
  }

  /** Betting up to at least the current bet keeps the invariants, the cards and the money. */
  lemma BetKeeps(t: Table, target: real)
    requires t.turn < |t.seats| && target >= t.currentBet
    ensures KeptBy(t, BetTo(t, target))
  {
    var r := BetTo(t, target);
    var owed := target - t.seats[t.turn].bet;
    PostBetFacts(t, t.turn, owed);
    PostBetConserves(t, t.turn, owed);
    HandCardsSame(t.seats, r.seats);
    assert SameNames(t.seats, r.seats);
    if TableInv(t) {
      SameNamesUnique(t.seats, r.seats);
    }
    if MoneyInv(t) {
      BetMoney(t, target);
    }
  }

  /** Betting up to at least the current bet keeps chips, pot and bets in range. */
  lemma BetMoney(t: Table, target: real)
    requires t.turn < |t.seats| && target >= t.currentBet && MoneyInv(t)
    ensures MoneyInv(BetTo(t, target))
  {
    PostBetFacts(t, t.turn, target - t.seats[t.turn].bet);
  }

  /** An accepted action keeps the invariants, the cards and the chips and pot together. */
  lemma ActedKeeps(t: Table, action: Action, amount: real)
    requires t.turn < |t.seats|
    requires action == Raise ==> amount >= t.currentBet
    ensures KeptBy(t, Acted(t, action, amount))
  {
    match action
    case Fold => FoldKeeps(t, amount);
    case Call => CallKeeps(t, amount);
    case Raise => RaiseKeeps(t, amount);
    case Check =>
    case Unknown =>
  }
  /** An accepted action keeps the table invariant. */
  lemma ActedInv(t: Table, action: Action, amount: real)
    requires TableInv(t) && t.turn < |t.seats|
    requires action == Raise ==> amount >= t.currentBet
    ensures TableInv(Acted(t, action, amount)) && |Acted(t, action, amount).seats| == |t.seats|
  {
    ActedKeeps(t, action, amount);
  }

  /**
    `_next_turn` keeps the invariants, the cards, the pot, and the chips
    unless the showdown it reaches pays out the pot.
   */
  lemma NextTurnKeeps(t: Table)
    requires t.turn < |t.seats|
    ensures var r := NextTurnSpec(t);
      SameNames(t.seats, r.table.seats) && r.table.pot == t.pot &&
      ChipsTotal(r.table.seats) ==
        ChipsTotal(t.seats) + (if t.stage == River && r.table.stage == Showdown && r.outcome == Ok then t.pot else 0.0) &&
      (TableInv(t) ==> TableInv(r.table)) &&
      (MoneyInv(t) ==> MoneyInv(r.table)) &&
      (TableInv(t) && CardsConserved(t) ==> CardsConserved(r.table))
  {
    var n := |t.seats|;
    NextTurnFacts(t);
    if forall k :: 1 <= k <= n ==> !Playable(t.seats[Around(t.turn, k, n)]) {
      AdvanceStreet(t);
      AdvanceReset(t);
      AdvanceMoney(t);
      if TableInv(t) {
        AdvanceInv(t);
        if CardsConserved(t) {
          AdvanceCards(t);
        }
      }
    }
  }

  /**
    `player_action` keeps the seat names, the table invariant, the money
    invariant and the cards, whatever its outcome; chips plus pot stay the
    same except when the action ends the river and the showdown pays the
    pot out to the winners.
   */
  lemma ActionKeeps(t: Table, username: string, action: Action, amount: real)
    ensures var r := ActionSpec(t, username, action, amount);
      var paid := t.stage == River && r.table.stage == Showdown && r.outcome == Ok;
      SameNames(t.seats, r.table.seats) &&
      ChipsTotal(r.table.seats) + (if paid then 0.0 else r.table.pot) == ChipsTotal(t.seats) + t.pot &&
      (TableInv(t) ==> TableInv(r.table)) &&
      (MoneyInv(t) ==> MoneyInv(r.table)) &&
      (TableInv(t) && CardsConserved(t) ==> CardsConserved(r.table))
  {
    ActionRefusals(t, username, action, amount);
    var r := ActionSpec(t, username, action, amount);
    if !r.outcome.Refused? && r.outcome != Raised(NoSeat) {
      ActedKeeps(t, action, amount);
      NextTurnKeeps(Acted(t, action, amount));
    }
  }

  // ---------------------------------------------------------------------
  // The heads-up flow

  /** Alice and then Bob sit down with 1000 chips each at a new table. */
  function HeadsUpTable(pack: seq<Card>): Table
  {
    AddPlayerSpec(AddPlayerSpec(NewTable("test_room", pack), "Alice", 1000.0), "Bob", 1000.0)
  }

  /** After `start_round` Bob deals and posts 20, Alice posts 10 and acts first. */
  lemma HeadsUpStart(pack0: seq<Card>, pack: seq<Card>)
    requires |pack| >= 4
    ensures var s := StartRoundSpec(HeadsUpTable(pack0), pack); var t := s.table;
      s.outcome == Ok && |t.seats| == 2 &&
      t.seats[0].username == "Alice" && t.seats[1].username == "Bob" &&
      t.dealer == 1 && t.turn == 0 && t.stage == Preflop && t.currentBet == 20.0 &&
      t.seats[0] == Seat("Alice", 990.0, t.seats[0].hand, 10.0, false, false) &&
      t.seats[1] == Seat("Bob", 980.0, t.seats[1].hand, 20.0, false, false)
  {
    var t0 := HeadsUpTable(pack0);
    assert "Alice"[0] != "Bob"[0];
    assert t0.seats == [NewSeat("Alice", 1000.0), NewSeat("Bob", 1000.0)] && t0.dealer == 0;
    StartRoundOutcome(t0, pack);
    StartRoundDeal(t0, pack);
    var r := StartRoundSpec(t0, pack).table;
    assert r.dealer == 1;
    assert SmallBlindSeat(r) == 0 && BigBlindSeat(r) == 1;
    StartRoundBlinds(t0, pack);
  }

  /** Alice calls: the bets are level, Bob is to act, and the hand is still before the flop. */
  lemma HeadsUpCall(pack0: seq<Card>, pack: seq<Card>)
    requires |pack| >= 4
    ensures var s := StartRoundSpec(HeadsUpTable(pack0), pack);
      var c := ActionSpec(s.table, "Alice", ActionOf("call"), 0.0); var t := c.table;
      c.outcome == Ok && t.stage == Preflop && t.turn == 1 && t.currentBet == 20.0 &&
      t.seats[0].bet == 20.0 && t.seats[1].bet == 20.0 && t.seats[0].chips == 980.0 && t.pot == 40.0 &&
      t.community == [] && |t.seats| == 2 &&
      t.seats[0].username == "Alice" && !t.seats[0].folded && !t.seats[0].allIn &&
      t.seats[1].username == "Bob" && !t.seats[1].folded && !t.seats[1].allIn
  {
    HeadsUpStart(pack0, pack);
    var t1 := StartRoundSpec(HeadsUpTable(pack0), pack).table;
    StartRoundBlinds(HeadsUpTable(pack0), pack);
    assert t1.pot == 30.0;
    StartRoundDeal(HeadsUpTable(pack0), pack);
    var a := Acted(t1, Call, 0.0);
    CallFacts(t1, 0.0);
    assert Playable(a.seats[1]);
    assert NextSeat(a.seats, 0, 2) == Some(1);
  }

  /**
    Bob checks: the check is accepted, and since Alice can still act the
    turn goes back to her and the hand stays before the flop, with no
    board.
   */
  lemma CallThenCheckStaysPreflop(pack0: seq<Card>, pack: seq<Card>)
    requires |pack| >= 4
    ensures var s := StartRoundSpec(HeadsUpTable(pack0), pack);
      var c := ActionSpec(s.table, "Alice", ActionOf("call"), 0.0);
      var k := ActionSpec(c.table, "Bob", ActionOf("check"), 0.0);
      k.outcome == Ok && k.table.stage == Preflop && k.table.community == [] && k.table.turn == 0
  {
    HeadsUpCall(pack0, pack);
    var s := StartRoundSpec(HeadsUpTable(pack0), pack);
    var c := ActionSpec(s.table, "Alice", ActionOf("call"), 0.0);
    assert Acted(c.table, Check, 0.0) == c.table;
    assert NextSeat(c.table.seats, 1, 2) == Some(0);
  }

  // ---------------------------------------------------------------------
  // get_state

  /**
    `get_state` shows every seat in order with its name, chips, bet, fold
    and cards, and marks exactly the seat at the turn, since names are
    unique.
   */
  lemma StateOfFacts(t: Table)
    requires t.turn < |t.seats| && UniqueNames(t.seats)
    ensures var v := StateOf(t);
      v.roomId == t.roomId && v.pot == t.pot && v.stage == StageName(t.stage) &&
      v.community == Dicts(t.community) && |v.players| == |t.seats| &&
      forall j :: 0 <= j < |t.seats| ==>
        v.players[j].username == t.seats[j].username && v.players[j].chips == t.seats[j].chips &&
        v.players[j].bet == t.seats[j].bet && v.players[j].folded == t.seats[j].folded &&
        v.players[j].hand == Dicts(t.seats[j].hand) &&
        (v.players[j].isTurn <==> j == t.turn)
  {
  }
}
