/**
  The classes of `game.py`: a `Player` whose fields the game updates in
  place, and a `Game` that owns a list of players, a `Deck` and the
  betting state. Each method ends in the state that the matching function
  of `GameSpec` gives for the state it started in, and keeps `Valid`.
 */
module Engine {
  import opened Wrappers
  import opened Cards
  import opened Decks
  import opened HandScore
  import opened HandEvaluator
  import opened GameSpec
  import opened GameLemmas

  class Player {
    const username: string
    var chips: real
    var hand: seq<Card>
    var currentBet: real
    var isFolded: bool
    var isAllIn: bool

    /** The player as a seat of the table value. */
    function View(): Seat
      reads this
    {
      Seat(username, chips, hand, currentBet, isFolded, isAllIn)
    }

    constructor (username: string, chips: real)
      ensures View() == NewSeat(username, chips)
    {
      this.username := username;
      this.chips := chips;
      hand := [];
      currentBet := 0.0;
      isFolded := false;
      isAllIn := false;
    }

    /** `reset_for_round`: no cards, no bet, back in the hand; name and chips stay. */
    method ResetForRound()
      modifies this
      ensures View() == ResetSeat(old(View()))
    {
      hand := [];
      currentBet := 0.0;
      isFolded := false;
      isAllIn := false;
    }
  }

  /** The seats of a row of players. */
  function SeatsOf(ps: seq<Player>): (s: seq<Seat>)
    reads ps
    ensures |s| == |ps| && forall i :: 0 <= i < |ps| ==> s[i] == ps[i].View()
  {
    seq(|ps|, i reads ps requires 0 <= i < |ps| => ps[i].View())
  }

  class Game {
    const roomId: string
    var players: seq<Player>
    const deck: Deck
    var community: seq<Card>
    var pot: real
    var currentBet: real
    var turnIndex: nat
    var dealerIndex: nat
    var stage: Stage
    var isActive: bool

    function Seats(): (s: seq<Seat>)
      reads this`players, players
      ensures |s| == |players| && forall i :: 0 <= i < |players| ==> s[i] == players[i].View()
    {
      SeatsOf(players)
    }

    /** The game as a table value. */
    function Abstract(): Table
      reads this, players, deck
    {
      Table(roomId, Seats(), deck.cards, community, pot, currentBet, turnIndex, dealerIndex, stage, isActive)
    }

    /** No player object sits in two seats. */
    predicate Separate()
      reads this`players
    {
      forall i, j :: 0 <= i < j < |players| ==> players[i] != players[j]
    }

    predicate Valid()
      reads this, players, deck
    {
      Separate() && TableInv(Abstract())
    }

    /** `Game(room_id)`, whose deck is the full pack shuffled with `draws`. */
    constructor (roomId: string, draws: seq<nat>)
      requires ValidDraws(draws, 52)
      ensures Valid() && fresh(deck)
      ensures Abstract() == NewTable(roomId, Shuffled(FullDeck(), draws))
    {
      this.roomId := roomId;
      players := [];
      deck := new Deck(draws);
      community := [];
      pot := 0.0;
      currentBet := 0.0;
      turnIndex := 0;
      dealerIndex := 0;
      stage := Preflop;
      isActive := false;
      new;
      NewTableInv(roomId, Shuffled(FullDeck(), draws));
    }

    /** `add_player`. */
    method AddPlayer(username: string, chips: real)
      requires Valid()
      modifies this
      ensures Valid()
      ensures Abstract() == AddPlayerSpec(old(Abstract()), username, chips)
    {
      AddPlayerFacts(Abstract(), username, chips);
      if exists i :: 0 <= i < |players| && players[i].username == username {
        assert Seated(Seats(), username);
        return;
      }
      ghost var s := Seats();
      var p := new Player(username, chips);
      players := players + [p];
      assert Seats() == s + [NewSeat(username, chips)];
    }

    /** `_post_bet(players[i], amount)`. */
    method PostBet(i: nat, amount: real)
      requires Separate() && i < |players|
      modifies this`pot, players[i]
      ensures Abstract() == PostBetSpec(old(Abstract()), i, amount)
    {
      ghost var s := Seats();
      var p := players[i];
      var a := amount;
      if p.chips < a {
        a := p.chips;
        p.isAllIn := true;
      }
      p.chips := p.chips - a;
      p.currentBet := p.currentBet + a;
      pot := pot + a;
      assert Seats() == s[i := PostBetSeat(s[i], amount)];
    }

    /**
      The loop of `start_round` over the players: reset each one and deal
      it two cards, stopping where the deck runs out.
     */
    method DealHoleCards() returns (ok: bool)
      requires Separate()
      modifies players, deck
      ensures var d := DealFrom(old(Seats()), old(deck.cards), 0);
        Seats() == d.seats && deck.cards == d.deck && ok == d.ok
    {
      var i := 0;
      while i < |players|
        invariant 0 <= i <= |players|
        invariant DealFrom(Seats(), deck.cards, i) == DealFrom(old(Seats()), old(deck.cards), 0)
      {
        var dealt := DealPlayer(i);
        if !dealt {
          return false;
        }
        i := i + 1;
      }
      return true;
    }

    /** One pass of that loop: `reset_for_round` on seat `i`, then two cards from the deck if it holds two. */
    method DealPlayer(i: nat) returns (ok: bool)
      requires Separate() && i < |players|
      modifies players[i], deck
      ensures ok == (2 <= |old(deck.cards)|)
      ensures var s := ResetSeat(old(Seats())[i]);
        if ok then Seats() == old(Seats())[i := s.(hand := Dealt(old(deck.cards), 2))] && deck.cards == Remaining(old(deck.cards), 2)
        else Seats() == old(Seats())[i := s] && deck.cards == old(deck.cards)
    {
      ghost var s, d := Seats(), deck.cards;
      var p := players[i];
      p.ResetForRound();
      assert Seats() == s[i := ResetSeat(s[i])];
      var dealt := deck.Deal(2);
      if dealt.None? {
        return false;
      }
      p.hand := dealt.value;
      assert Seats() == s[i := ResetSeat(s[i]).(hand := Dealt(d, 2))];
      return true;
    }

    /** The resets at the head of `start_round`, once the deck is refilled: the dealer moves one seat on. */
    method ResetTable()
      requires |players| > 0
      modifies this`isActive, this`community, this`pot, this`currentBet, this`stage, this`dealerIndex
      ensures Abstract() == Restart(old(Abstract()), deck.cards)
    {
      isActive := true;
      community := [];
      pot := 0.0;
      currentBet := 0.0;
      stage := Preflop;
      dealerIndex := (dealerIndex + 1) % |players|;
    }

    /** The blinds of `start_round`: 10 left of the dealer, 20 left of that, then the turn after the big blind. */
    method PostBlinds()
      requires Separate() && |players| > 0
      modifies this`pot, this`currentBet, this`turnIndex, players
      ensures Abstract() == GameSpec.PostBlinds(old(Abstract()))
    {
      ghost var t := Abstract();
      var n := |players|;
      var sb := (dealerIndex + 1) % n;
      var bb := (dealerIndex + 2) % n;
      PostBet(sb, SmallBlind);
      PostBet(bb, BigBlind);
      ghost var t2 := Abstract();
      assert t2 == PostBetSpec(PostBetSpec(t, SmallBlindSeat(t), SmallBlind), BigBlindSeat(t), BigBlind);
      currentBet := BigBlind;
      turnIndex := (bb + 1) % n;
      assert Abstract() == t2.(currentBet := BigBlind, turn := (bb + 1) % n);
    }

    /** `start_round`, where `deck.reset()` shuffles with `draws`. */
    method StartRound(draws: seq<nat>) returns (outcome: Outcome)
      requires Valid() && ValidDraws(draws, 52)
      modifies this, deck, players
      ensures Valid() && players == old(players)
      ensures var r := StartRoundSpec(old(Abstract()), Shuffled(FullDeck(), draws));
        Abstract() == r.table && outcome == r.outcome
    {
      ghost var t0 := Abstract();
      StartRoundInv(t0, Shuffled(FullDeck(), draws));
      if |players| < 2 {
        return Ok;
      }
      ghost var pack := Shuffled(FullDeck(), draws);
      deck.Reset(draws);
      ResetTable();
      assert Abstract() == Restart(t0, pack);
      outcome := DealAndPostBlinds();
    }

    /** The rest of `start_round`: deal the hole cards, then post the blinds if the deck held out. */
    method DealAndPostBlinds() returns (outcome: Outcome)
      requires Separate() && |players| >= 2
      modifies deck, players, this`pot, this`currentBet, this`turnIndex
      ensures var t := old(Abstract()); var d := DealFrom(t.seats, t.deck, 0);
        var t2 := t.(seats := d.seats, deck := d.deck);
        if d.ok then Abstract() == GameSpec.PostBlinds(t2) && outcome == Ok
        else Abstract() == t2 && outcome == Raised(DeckExhausted)
    {
      ghost var t1 := Abstract();
      var ok := DealHoleCards();
      ghost var dealt := DealFrom(t1.seats, t1.deck, 0);
      assert Abstract() == t1.(seats := dealt.seats, deck := dealt.deck);
      if !ok {
        return Raised(DeckExhausted);
      }
      PostBlinds();
      return Ok;
    }

    /** What `player_action` does to the table for an accepted action, before `_next_turn`. */
    method Act(act: Action, amount: real)
      requires Separate() && turnIndex < |players|
      modifies this`pot, this`currentBet, players[turnIndex]
      ensures Abstract() == Acted(old(Abstract()), act, amount)
    {
      var p := players[turnIndex];
      match act
      case Fold =>
        FoldPlayer(turnIndex);
      case Call =>
        PostBet(turnIndex, currentBet - p.currentBet);
      case Raise =>
        PostBet(turnIndex, amount - p.currentBet);
        currentBet := amount;
      case _ =>
    }

    /** `player.is_folded = True` for the player in seat `i`. */
    method FoldPlayer(i: nat)
      requires Separate() && i < |players|
      modifies players[i]
      ensures Seats() == old(Seats())[i := old(Seats())[i].(folded := true)]
    {
      ghost var s := Seats();
      players[i].isFolded := true;
      assert Seats() == s[i := s[i].(folded := true)];
    }

    /**
      `player_action(username, action, amount)`: the outcome, and the
      `get_state` snapshot that the code returns with `"status": "ok"`.
     */
    method PlayerAction(username: string, action: string, amount: real) returns (outcome: Outcome, state: Option<StateView>)
      requires Valid()
      modifies this, deck, players
      ensures Valid() && players == old(players)
      ensures var r := ActionSpec(old(Abstract()), username, ActionOf(action), amount);
        Abstract() == r.table && outcome == r.outcome
      ensures state == if outcome == Ok then Some(StateOf(Abstract())) else None
    {
      ghost var t0 := Abstract();
      var act := ActionOf(action);
      ActionRefusals(t0, username, act, amount);
      if turnIndex >= |players| {
        return Raised(NoSeat), None;
      }
      var p := players[turnIndex];
      if p.username != username {
        return Refused(NotYourTurn), None;
      }
      if act == Check && p.currentBet < currentBet {
        return Refused(MustCall), None;
      }
      if act == Raise && amount < currentBet {
        return Refused(RaiseTooSmall), None;
      }
      Act(act, amount);
      ActedInv(t0, act, amount);
      outcome := NextTurn();
      state := if outcome == Ok then Some(StateOf(Abstract())) else None;
    }

    /**
      The loop of `_next_turn`: step the turn round the table, at most once
      round, until it reaches a player who is neither folded nor all-in.
     */
    method FindNextTurn() returns (found: bool)
      requires |players| > 0 && turnIndex < |players|
      modifies this`turnIndex
      ensures var next := NextSeat(Seats(), old(turnIndex), |players|);
        found == next.Some? && turnIndex == if found then next.value else old(turnIndex)
    {
      ghost var from := turnIndex;
      var n := |players|;
      var count := 0;
      ModSmall(turnIndex, n);
      while count < n
        invariant 0 <= count <= n
        invariant turnIndex == Around(from, count, n)
        invariant NextSeat(Seats(), turnIndex, n - count) == NextSeat(Seats(), from, n)
      {
        AroundNext(from, count, n);
        turnIndex := (turnIndex + 1) % n;
        var p := players[turnIndex];
        if !p.isFolded && !p.isAllIn {
          return true;
        }
        count := count + 1;
      }
      ModWrap(from + n, n);
      return false;
    }

    /** `_next_turn`. */
    method NextTurn() returns (outcome: Outcome)
      requires Valid() && turnIndex < |players|
      modifies this, deck, players
      ensures Valid() && players == old(players)
      ensures var r := NextTurnSpec(old(Abstract())); Abstract() == r.table && outcome == r.outcome
    {
      ghost var t0 := Abstract();
      var found := FindNextTurn();
      if found {
        TurnMoved(t0, turnIndex);
        return Ok;
      }
      NoTurnAdvances(t0);
      outcome := AdvanceStage();
    }

    /** The street change of `_advance_stage`: deal the board, or go to the showdown. */
    method StreetStep() returns (outcome: Outcome)
      requires Separate()
      modifies this`stage, this`community, this`isActive, deck, players
      ensures var r := GameSpec.StageStep(old(Abstract())); Abstract() == r.table && outcome == r.outcome
    {
      if stage == Preflop {
        outcome := DealFlop();
      } else if stage == Flop || stage == Turn {
        outcome := DealStreetCard();
      } else if stage == River {
        ghost var t0 := Abstract();
        ShowdownStep(t0);
        stage := Showdown;
        assert Abstract() == t0.(stage := Showdown);
        outcome := ResolveWinner();
      } else {
        outcome := Ok;
      }
    }

    /** `PREFLOP` becomes `FLOP`, and three cards from the deck are the board. */
    method DealFlop() returns (outcome: Outcome)
      requires stage == Preflop
      modifies this`stage, this`community, deck
      ensures var r := GameSpec.StageStep(old(Abstract())); Abstract() == r.table && outcome == r.outcome
    {
      FlopStep(Abstract());
      stage := Flop;
      var dealt := deck.Deal(3);
      if dealt.None? {
        return Raised(DeckExhausted);
      }
      community := dealt.value;
      return Ok;
    }

    /** `FLOP` becomes `TURN` and `TURN` becomes `RIVER`, and one card from the deck joins the board. */
    method DealStreetCard() returns (outcome: Outcome)
      requires stage == Flop || stage == Turn
      modifies this`stage, this`community, deck
      ensures var r := GameSpec.StageStep(old(Abstract())); Abstract() == r.table && outcome == r.outcome
    {
      ghost var t0 := Abstract();
      DealOneStep(t0);
      stage := if stage == Flop then Turn else River;
      var dealt := deck.Deal(1);
      if dealt.None? {
        return Raised(DeckExhausted);
      }
      DealSplits(t0.deck, 1);
      community := community + [dealt.value[0]];
      return Ok;
    }

    /** `_advance_stage`. */
    method AdvanceStage() returns (outcome: Outcome)
      requires Valid() && turnIndex < |players|
      modifies this, deck, players
      ensures Valid() && players == old(players)
      ensures var r := AdvanceSpec(old(Abstract())); Abstract() == r.table && outcome == r.outcome
    {
      AdvanceInv(Abstract());
      outcome := StreetThenReset();
    }

    /** The street step of `_advance_stage`, then, if it went through, the betting reset. */
    method StreetThenReset() returns (outcome: Outcome)
      requires Separate() && |players| > 0
      modifies this`stage, this`community, this`isActive, this`currentBet, this`turnIndex, deck, players
      ensures var r := AdvanceSpec(old(Abstract())); Abstract() == r.table && outcome == r.outcome
    {
      AdvanceOfStep(Abstract());
      outcome := StreetStep();
      if outcome != Ok {
        return;
      }
      ResetBetting();
    }

    /** The tail of `_advance_stage`: no bet on the table or in front of any player, and the turn left of the dealer. */
    method ResetBetting()
      requires Separate() && |players| > 0
      modifies this`currentBet, this`turnIndex, players
      ensures var t := old(Abstract());
        Abstract() == t.(currentBet := 0.0, seats := ZeroBets(t.seats), turn := (t.dealer + 1) % |t.seats|)
    {
      currentBet := 0.0;
      for i := 0 to |players|
        modifies players
        invariant forall j :: 0 <= j < |players| ==>
          players[j].View() == if j < i then old(players[j].View()).(bet := 0.0) else old(players[j].View())
      {
        players[i].currentBet := 0.0;
      }
      assert Seats() == ZeroBets(old(Seats()));
      turnIndex := (dealerIndex + 1) % |players|;
    }

    /** The loop of `_resolve_winner` that ranks the hands, with the winners held as seat numbers. */
    method FindWinners() returns (winners: seq<nat>)
      ensures winners == Winners(Seats(), community)
    {
      ghost var e := Entries(Seats(), community);
      var best := NoHand;
      winners := [];
      for i := 0 to |players|
        invariant best == BestAmong(e, i) && winners == WinnersUpTo(e, i)
      {
        var p := players[i];
        assert e[i] == if p.isFolded then None else Some(HandValue(p.hand + community));
        if !p.isFolded {
          var rank := Evaluate(p.hand + community);
          if ScoreLess(best, rank) {
            best := rank;
            winners := [i];
          } else if rank == best {
            winners := winners + [i];
          }
        }
      }
    }

    /** The loop `for w in winners: w.chips += share`. */
    method PayWinners(winners: seq<nat>, share: real)
      requires Separate() && forall k :: 0 <= k < |winners| ==> winners[k] < |players|
      modifies players
      ensures Seats() == Credit(old(Seats()), winners, share)
    {
      for k := 0 to |winners|
        invariant Credit(Seats(), winners[k..], share) == Credit(old(Seats()), winners, share)
      {
        ghost var s := Seats();
        CreditPlayer(winners[k], share);
        CreditHead(s, winners[k..], share);
        assert winners[k..][1..] == winners[k + 1..];
      }
    }

    /** One pass of that loop: `w.chips += share` for the player in seat `i`. */
    method CreditPlayer(i: nat, share: real)
      requires Separate() && i < |players|
      modifies players[i]
      ensures Seats() == old(Seats())[i := old(Seats())[i].(chips := old(Seats())[i].chips + share)]
    {
      ghost var s := Seats();
      var p := players[i];
      p.chips := p.chips + share;
      assert Seats() == s[i := s[i].(chips := s[i].chips + share)];
    }

    /** `_resolve_winner`. */
    method ResolveWinner() returns (outcome: Outcome)
      requires Separate()
      modifies this`isActive, players
      ensures var r := ResolveSpec(old(Abstract())); Abstract() == r.table && outcome == r.outcome
    {
      ghost var t := Abstract();
      var winners := FindWinners();
      WinnersInRange(Entries(Seats(), community), |players|);
      if |winners| == 0 {
        return Raised(NoWinner);
      }
      var share := pot / (|winners| as real);
      PayWinners(winners, share);
      assert Seats() == Credit(t.seats, winners, share);
      isActive := false;
      assert Abstract() == t.(seats := Credit(t.seats, winners, share), active := false);
      return Ok;
    }
  }
}
