/**
  The table of `game.py` as a value, and each operation of `Game` as a
  function from the table before to the table after. The classes in
  `Engine` are proved to follow these functions.

  Python exceptions that the operations let escape (dealing from a deck
  with too few cards, splitting the pot among no winners, indexing an
  empty list of players) are outcomes here, and the table of such an
  outcome is the state the code has reached when it raises.
 */
module GameSpec {
  import opened Wrappers
  import opened Cards
  import opened Decks
  import opened HandScore
  import opened HandEvaluator

  /** `game_stage`; the code stores these as strings. */
  datatype Stage = Preflop | Flop | Turn | River | Showdown

  function StageName(s: Stage): string
  {
    match s
    case Preflop => "PREFLOP"
    case Flop => "FLOP"
    case Turn => "TURN"
    case River => "RIVER"
    case Showdown => "SHOWDOWN"
  }

  /** A `Player`. */
  datatype Seat = Seat(username: string, chips: real, hand: seq<Card>, bet: real, folded: bool, allIn: bool)

  /** `Player(username, chips)`. */
  function NewSeat(username: string, chips: real): Seat
  {
    Seat(username, chips, [], 0.0, false, false)
  }

  /** `Player.reset_for_round`: keeps the name and the chips. */
  function ResetSeat(s: Seat): Seat
  {
    NewSeat(s.username, s.chips)
  }

  /** A `Game`. */
  datatype Table = Table(
    roomId: string,
    seats: seq<Seat>,
    deck: seq<Card>,
    community: seq<Card>,
    pot: real,
    currentBet: real,
    turn: nat,
    dealer: nat,
    stage: Stage,
    active: bool)

  /** `Game(room_id)`, whose new `Deck` holds `pack`, a shuffled pack. */
  function NewTable(roomId: string, pack: seq<Card>): Table
  {
    Table(roomId, [], pack, [], 0.0, 0.0, 0, 0, Preflop, false)
  }

  /** The returned `{"error": ...}` dictionaries of `player_action`. */
  datatype Refusal = NotYourTurn | MustCall | RaiseTooSmall

  function RefusalMessage(r: Refusal): string
  {
    match r
    case NotYourTurn => "Not your turn"
    case MustCall => "Cannot check, must call"
    case RaiseTooSmall => "Raise must be greater than current bet"
  }

  /**
    Exceptions: `ValueError` from `Deck.deal`, `ZeroDivisionError` when
    the pot is split among no winners, `IndexError` when `player_action`
    finds no player at `turn_index`.
   */
  datatype Failure = DeckExhausted | NoWinner | NoSeat

  datatype Outcome = Ok | Refused(reason: Refusal) | Raised(failure: Failure)

  /** The table after an operation together with how the operation ended. */
  datatype Step = Step(table: Table, outcome: Outcome)

  /** The `action` strings `player_action` tells apart; any other string is `Unknown`. */
  datatype Action = Fold | Call | Check | Raise | Unknown

  function ActionOf(s: string): Action
  {
    if s == "fold" then Fold
    else if s == "call" then Call
    else if s == "check" then Check
    else if s == "raise" then Raise
    else Unknown
  }

  // ---------------------------------------------------------------------
  // add_player

  predicate Seated(seats: seq<Seat>, username: string)
  {
    exists i :: 0 <= i < |seats| && seats[i].username == username
  }

  /** `add_player`: nothing when the name is seated, otherwise a new seat at the end. */
  function AddPlayerSpec(t: Table, username: string, chips: real): Table
  {
    if Seated(t.seats, username) then t
    else t.(seats := t.seats + [NewSeat(username, chips)])
  }

  // ---------------------------------------------------------------------
  // _post_bet

  /** What `_post_bet` takes from the seat: the amount, or every chip left when short. */
  function Posted(s: Seat, amount: real): real
  {
    if s.chips < amount then s.chips else amount
  }

  function PostBetSeat(s: Seat, amount: real): Seat
  {
    var a := Posted(s, amount);
    s.(chips := s.chips - a, bet := s.bet + a, allIn := s.allIn || s.chips < amount)
  }

  /** `_post_bet(players[i], amount)`. */
  function PostBetSpec(t: Table, i: nat, amount: real): Table
    requires i < |t.seats|
  {
    t.(seats := t.seats[i := PostBetSeat(t.seats[i], amount)], pot := t.pot + Posted(t.seats[i], amount))
  }

  // ---------------------------------------------------------------------
  // start_round

  /** The seats and deck after resetting and dealing seats `i..`, and whether every deal succeeded. */
  datatype Dealing = Dealing(seats: seq<Seat>, deck: seq<Card>, ok: bool)

  /** The loop of `start_round` over the players from seat `i` on: reset, then take two cards. */
  function DealFrom(seats: seq<Seat>, deck: seq<Card>, i: nat): (r: Dealing)
    requires i <= |seats|
    ensures |r.seats| == |seats|
    decreases |seats| - i
  {
    if i == |seats| then Dealing(seats, deck, true)
    else
      var s := ResetSeat(seats[i]);
      if |deck| < 2 then Dealing(seats[i := s], deck, false)
      else DealFrom(seats[i := s.(hand := Dealt(deck, 2))], Remaining(deck, 2), i + 1)
  }

  const SmallBlind: real := 10.0
  const BigBlind: real := 20.0

  /** The small blind sits left of the dealer, the big blind left of the small blind. */
  function SmallBlindSeat(t: Table): nat
    requires |t.seats| > 0
  {
    (t.dealer + 1) % |t.seats|
  }

  function BigBlindSeat(t: Table): nat
    requires |t.seats| > 0
  {
    (t.dealer + 2) % |t.seats|
  }

  /** The blinds of `start_round`; action opens left of the big blind. */
  function PostBlinds(t: Table): (r: Table)
    requires |t.seats| > 0
    ensures |r.seats| == |t.seats|
  {
    var n := |t.seats|;
    var sb, bb := SmallBlindSeat(t), BigBlindSeat(t);
    var t1 := PostBetSpec(PostBetSpec(t, sb, SmallBlind), bb, BigBlind);
    t1.(currentBet := BigBlind, turn := (bb + 1) % n)
  }

  /** The resets of `start_round` before the players are dealt. */
  function Restart(t: Table, pack: seq<Card>): (r: Table)
    requires |t.seats| > 0
    ensures r.seats == t.seats
  {
    t.(active := true, deck := pack, community := [], pot := 0.0,
       currentBet := 0.0, stage := Preflop, dealer := (t.dealer + 1) % |t.seats|)
  }

  /** `start_round`, where `pack` is the deck after `deck.reset()`: a shuffled pack. */
  function StartRoundSpec(t: Table, pack: seq<Card>): (r: Step)
    ensures |r.table.seats| == |t.seats|
  {
    if |t.seats| < 2 then Step(t, Ok)
    else
      var t1 := Restart(t, pack);
      var dealt := DealFrom(t1.seats, t1.deck, 0);
      var t2 := t1.(seats := dealt.seats, deck := dealt.deck);
      if !dealt.ok then Step(t2, Raised(DeckExhausted))
      else Step(PostBlinds(t2), Ok)
  }

  // ---------------------------------------------------------------------
  // _next_turn

  /** Neither folded nor all-in: a seat that still acts. */
  predicate Playable(s: Seat)
  {
    !s.folded && !s.allIn
  }

  /** The loop of `_next_turn`: the first playable seat among the `rem` seats after `from`, going round. */
  function NextSeat(seats: seq<Seat>, from: nat, rem: nat): (r: Option<nat>)
    requires |seats| > 0
    ensures r.Some? ==> r.value < |seats| && Playable(seats[r.value])
    decreases rem
  {
    if rem == 0 then None
    else
      var j := (from + 1) % |seats|;
      if Playable(seats[j]) then Some(j) else NextSeat(seats, j, rem - 1)
  }

  /** `_next_turn`: move to the next playable seat, or advance the stage when there is none. */
  function NextTurnSpec(t: Table): (r: Step)
    requires |t.seats| > 0
    ensures |r.table.seats| == |t.seats|
  {
    var n := |t.seats|;
    match NextSeat(t.seats, t.turn, n)
    case Some(j) => Step(t.(turn := j), Ok)
    case None => AdvanceSpec(t.(turn := (t.turn + n) % n))
  }

  // ---------------------------------------------------------------------
  // _advance_stage

  /** `community_cards.append(deck.deal(1)[0])`. */
  function DealOne(t: Table): Step
  {
    if |t.deck| < 1 then Step(t, Raised(DeckExhausted))
    else Step(t.(community := t.community + [Dealt(t.deck, 1)[0]], deck := Remaining(t.deck, 1)), Ok)
  }

  /** The stage change of `_advance_stage`, with its dealing or the showdown. */
  function StageStep(t: Table): (r: Step)
    ensures |r.table.seats| == |t.seats|
  {
    match t.stage
    case Preflop =>
      var t1 := t.(stage := Flop);
      if |t.deck| < 3 then Step(t1, Raised(DeckExhausted))
      else Step(t1.(community := Dealt(t.deck, 3), deck := Remaining(t.deck, 3)), Ok)
    case Flop => DealOne(t.(stage := Turn))
    case Turn => DealOne(t.(stage := River))
    case River => ResolveSpec(t.(stage := Showdown))
    case Showdown => Step(t, Ok)
  }

  /** Every seat's street bet back to zero. */
  function ZeroBets(seats: seq<Seat>): (r: seq<Seat>)
    ensures |r| == |seats|
    ensures forall i :: 0 <= i < |seats| ==> r[i] == seats[i].(bet := 0.0)
  {
    seq(|seats|, i requires 0 <= i < |seats| => seats[i].(bet := 0.0))
  }

  /** `_advance_stage`: the stage step, then the betting reset and the turn left of the dealer. */
  function AdvanceSpec(t: Table): (r: Step)
    requires |t.seats| > 0
    ensures |r.table.seats| == |t.seats|
  {
    var s := StageStep(t);
    if s.outcome != Ok then s
    else
      var u := s.table;
      Step(u.(currentBet := 0.0, seats := ZeroBets(u.seats), turn := (u.dealer + 1) % |u.seats|), Ok)
  }

  // ---------------------------------------------------------------------
  // _resolve_winner

  /** `HandEvaluator.evaluate(p.hand + community_cards)`. */
  function SeatScore(s: Seat, community: seq<Card>): Score
  {
    HandValue(s.hand + community)
  }

  /** The hands the loop of `_resolve_winner` ranks, by seat: none for a folded seat. */
  function Entries(seats: seq<Seat>, community: seq<Card>): (e: seq<Option<Score>>)
    ensures |e| == |seats|
    ensures forall i :: 0 <= i < |seats| ==>
      e[i] == if seats[i].folded then None else Some(SeatScore(seats[i], community))
  {
    seq(|seats|, i requires 0 <= i < |seats| =>
      if seats[i].folded then None else Some(SeatScore(seats[i], community)))
  }

  /** `best_rank` after the loop of `_resolve_winner` has seen seats `0..i`. */
  function BestAmong(e: seq<Option<Score>>, i: nat): Score
    requires i <= |e|
  {
    if i == 0 then NoHand
    else
      var b := BestAmong(e, i - 1);
      if e[i - 1].None? then b else Better(b, e[i - 1].value)
  }

  /** `winners` after the loop of `_resolve_winner` has seen seats `0..i`, as seat numbers. */
  function WinnersUpTo(e: seq<Option<Score>>, i: nat): seq<nat>
    requires i <= |e|
  {
    if i == 0 then []
    else
      var w := WinnersUpTo(e, i - 1);
      if e[i - 1].None? then w
      else
        var b, r := BestAmong(e, i - 1), e[i - 1].value;
        if ScoreLess(b, r) then [i - 1]
        else if r == b then w + [i - 1]
        else w
  }

  function Winners(seats: seq<Seat>, community: seq<Card>): seq<nat>
  {
    WinnersUpTo(Entries(seats, community), |seats|)
  }

  /** The loop `for w in winners: w.chips += share`. */
  function Credit(seats: seq<Seat>, w: seq<nat>, share: real): (r: seq<Seat>)
    requires forall k :: 0 <= k < |w| ==> w[k] < |seats|
    ensures |r| == |seats|
    decreases |w|
  {
    if w == [] then seats
    else
      var i := w[0];
      Credit(seats[i := seats[i].(chips := seats[i].chips + share)], w[1..], share)
  }

  /** `_resolve_winner`: split the pot among the best non-folded hands; the pot itself stays. */
  function ResolveSpec(t: Table): (r: Step)
    ensures |r.table.seats| == |t.seats|
  {
    var w := Winners(t.seats, t.community);
    WinnersInRange(Entries(t.seats, t.community), |t.seats|);
    if |w| == 0 then Step(t, Raised(NoWinner))
    else Step(t.(seats := Credit(t.seats, w, t.pot / (|w| as real)), active := false), Ok)
  }

  /** Winner numbers are seat numbers. */
  lemma {:induction false} WinnersInRange(e: seq<Option<Score>>, i: nat)
    requires i <= |e|
    ensures forall k :: 0 <= k < |WinnersUpTo(e, i)| ==> WinnersUpTo(e, i)[k] < i
  {
    if i > 0 {
      WinnersInRange(e, i - 1);
    }
  }

  // ---------------------------------------------------------------------
  // player_action

  /** What an accepted action does to the table before `_next_turn`. */
  function Acted(t: Table, action: Action, amount: real): Table
    requires t.turn < |t.seats|
  {
    var p := t.seats[t.turn];
    match action
    case Fold => t.(seats := t.seats[t.turn := p.(folded := true)])
    case Call => PostBetSpec(t, t.turn, t.currentBet - p.bet)
    case Raise => PostBetSpec(t, t.turn, amount - p.bet).(currentBet := amount)
    case Check => t
    case Unknown => t
  }

  /** `player_action(username, action, amount)`: the refusals, then the action and `_next_turn`. */
  function ActionSpec(t: Table, username: string, action: Action, amount: real): (r: Step)
    ensures |r.table.seats| == |t.seats|
  {
    if t.turn >= |t.seats| then Step(t, Raised(NoSeat))
    else
      var p := t.seats[t.turn];
      if p.username != username then Step(t, Refused(NotYourTurn))
      else if action == Check && p.bet < t.currentBet then Step(t, Refused(MustCall))
      else if action == Raise && amount < t.currentBet then Step(t, Refused(RaiseTooSmall))
      else NextTurnSpec(Acted(t, action, amount))
  }

  // ---------------------------------------------------------------------
  // get_state

  datatype SeatView = SeatView(username: string, chips: real, bet: real, folded: bool, isTurn: bool, hand: seq<CardDict>)

  datatype StateView = StateView(roomId: string, pot: real, stage: string, community: seq<CardDict>, players: seq<SeatView>)

  function Dicts(cards: seq<Card>): (r: seq<CardDict>)
    ensures |r| == |cards|
    ensures forall i :: 0 <= i < |cards| ==> r[i] == ToDict(cards[i])
  {
    seq(|cards|, i requires 0 <= i < |cards| => ToDict(cards[i]))
  }

  /** `get_state`: a seat is marked as on turn when it bears the name of the seat at `turn_index`. */
  function StateOf(t: Table): (v: StateView)
    requires |t.seats| > 0 ==> t.turn < |t.seats|
  {
    var views := seq(|t.seats|, i requires 0 <= i < |t.seats| =>
      var s := t.seats[i];
      SeatView(s.username, s.chips, s.bet, s.folded, t.seats[t.turn].username == s.username, Dicts(s.hand)));
    StateView(t.roomId, t.pot, StageName(t.stage), Dicts(t.community), views)
  }
}
