/**
  Playing cards: the thirteen ranks with their comparison values, the four
  suits, the order of two cards, their text form, and the 52-card pack in the
  order a fresh deck is built.
 */
module Cards {
  import opened Wrappers
  import opened Ordering
  import opened Lists

  /** Declaration order of the `Suit` enum. */
  datatype Suit = Hearts | Diamonds | Clubs | Spades

  /** Declaration order of the `Rank` enum. */
  datatype Rank = Two | Three | Four | Five | Six | Seven | Eight | Nine | Ten
                | Jack | Queen | King | Ace

  datatype Card = Card(rank: Rank, suit: Suit)

  /** The enum value of a suit. */
  function SuitText(s: Suit): string
  {
    match s
    case Hearts => "Hearts"
    case Diamonds => "Diamonds"
    case Clubs => "Clubs"
    case Spades => "Spades"
  }

  /** The enum value of a rank. */
  function RankText(r: Rank): string
  {
    match r
    case Two => "2"
    case Three => "3"
    case Four => "4"
    case Five => "5"
    case Six => "6"
    case Seven => "7"
    case Eight => "8"
    case Nine => "9"
    case Ten => "10"
    case Jack => "J"
    case Queen => "Q"
    case King => "K"
    case Ace => "A"
  }

  /** `RANK_VALUES`: the number a rank is compared by. */
  function RankValue(r: Rank): (v: int)
    ensures 2 <= v <= 14
  {
    match r
    case Two => 2
    case Three => 3
    case Four => 4
    case Five => 5
    case Six => 6
    case Seven => 7
    case Eight => 8
    case Nine => 9
    case Ten => 10
    case Jack => 11
    case Queen => 12
    case King => 13
    case Ace => 14
  }

  /** The rank whose comparison value is `v`, if any. */
  function RankOfValue(v: int): (r: Option<Rank>)
    ensures r.Some? <==> 2 <= v <= 14
  {
    if v == 2 then Some(Two)
    else if v == 3 then Some(Three)
    else if v == 4 then Some(Four)
    else if v == 5 then Some(Five)
    else if v == 6 then Some(Six)
    else if v == 7 then Some(Seven)
    else if v == 8 then Some(Eight)
    else if v == 9 then Some(Nine)
    else if v == 10 then Some(Ten)
    else if v == 11 then Some(Jack)
    else if v == 12 then Some(Queen)
    else if v == 13 then Some(King)
    else if v == 14 then Some(Ace)
    else None
  }

  /** `RANK_VALUES` is one-to-one and onto 2..14: `RankOfValue` undoes it both ways. */
  lemma RankValueRoundTrip(r: Rank, v: int)
    ensures RankOfValue(RankValue(r)) == Some(r)
    ensures 2 <= v <= 14 ==> RankValue(RankOfValue(v).value) == v
  {
  }

  lemma RankValueInjective(a: Rank, b: Rank)
    requires RankValue(a) == RankValue(b)
    ensures a == b
  {
    RankValueRoundTrip(a, 0);
    RankValueRoundTrip(b, 0);
  }

  /** The members of `Suit` and `Rank` in declaration order. */
  const AllSuits: seq<Suit> := [Hearts, Diamonds, Clubs, Spades]
  const AllRanks: seq<Rank> := [Two, Three, Four, Five, Six, Seven, Eight, Nine, Ten,
                                Jack, Queen, King, Ace]

  function SuitIndex(s: Suit): (k: nat)
    ensures k < 4 && AllSuits[k] == s
  {
    match s
    case Hearts => 0
    case Diamonds => 1
    case Clubs => 2
    case Spades => 3
  }

  lemma AllRanksValues(k: nat)
    requires k < 13
    ensures RankValue(AllRanks[k]) == k + 2
  {
  }

  lemma AllSuitsIndex(k: nat)
    requires k < 4
    ensures SuitIndex(AllSuits[k]) == k
  {
  }

  /**
    `Card.__lt__`: a different rank value decides, otherwise the suit names
    are compared as strings.
   */
  predicate CardLess(a: Card, b: Card)
  {
    if RankValue(a.rank) != RankValue(b.rank) then RankValue(a.rank) < RankValue(b.rank)
    else StrLess(SuitText(a.suit), SuitText(b.suit))
  }

  /** The position of a suit's name in alphabetical order. */
  function Alphabetical(s: Suit): nat
  {
    match s
    case Clubs => 0
    case Diamonds => 1
    case Hearts => 2
    case Spades => 3
  }

  /** Comparing suit names as strings orders them alphabetically. */
  lemma SuitTextOrder(a: Suit, b: Suit)
    ensures StrLess(SuitText(a), SuitText(b)) <==> Alphabetical(a) < Alphabetical(b)
  {
    var s, t := Codes(SuitText(a)), Codes(SuitText(b));
    assert s[0] == SuitText(a)[0] as int && t[0] == SuitText(b)[0] as int;
    if a == b {
      LexLessIrreflexive(s);
    }
  }

  lemma CardLessIrreflexive(a: Card)
    ensures !CardLess(a, a)
  {
    SuitTextOrder(a.suit, a.suit);
  }

  lemma CardLessTransitive(a: Card, b: Card, c: Card)
    requires CardLess(a, b) && CardLess(b, c)
    ensures CardLess(a, c)
  {
    SuitTextOrder(a.suit, b.suit);
    SuitTextOrder(b.suit, c.suit);
    SuitTextOrder(a.suit, c.suit);
  }

  /** `__lt__` is a strict total order on cards. */
  lemma CardLessTotal(a: Card, b: Card)
    ensures a == b || CardLess(a, b) || CardLess(b, a)
    ensures !(CardLess(a, b) && CardLess(b, a))
  {
    SuitTextOrder(a.suit, b.suit);
    SuitTextOrder(b.suit, a.suit);
    if RankValue(a.rank) == RankValue(b.rank) {
      RankValueInjective(a.rank, b.rank);
    }
  }

  /** `Card.__repr__`. */
  function CardText(c: Card): string
  {
    RankText(c.rank) + " of " + SuitText(c.suit)
  }

  /** `Card.to_dict`: the rank and suit texts, which decode back to the card, and `str(self)`. */
  datatype CardDict = CardDict(rank: string, suit: string, text: string)

  function ToDict(c: Card): (d: CardDict)
    ensures RankOfText(d.rank) == Some(c.rank) && SuitOfText(d.suit) == Some(c.suit)
    ensures d.text == CardText(c) && d.text == d.rank + " of " + d.suit
  {
    TextRoundTrip(c.rank, c.suit);
    CardDict(RankText(c.rank), SuitText(c.suit), CardText(c))
  }

  function RankOfText(s: string): Option<Rank>
  {
    if s == "2" then Some(Two)
    else if s == "3" then Some(Three)
    else if s == "4" then Some(Four)
    else if s == "5" then Some(Five)
    else if s == "6" then Some(Six)
    else if s == "7" then Some(Seven)
    else if s == "8" then Some(Eight)
    else if s == "9" then Some(Nine)
    else if s == "10" then Some(Ten)
    else if s == "J" then Some(Jack)
    else if s == "Q" then Some(Queen)
    else if s == "K" then Some(King)
    else if s == "A" then Some(Ace)
    else None
  }

  function SuitOfText(s: string): Option<Suit>
  {
    if s == "Hearts" then Some(Hearts)
    else if s == "Diamonds" then Some(Diamonds)
    else if s == "Clubs" then Some(Clubs)
    else if s == "Spades" then Some(Spades)
    else None
  }

  lemma TextRoundTrip(r: Rank, s: Suit)
    ensures RankOfText(RankText(r)) == Some(r)
    ensures SuitOfText(SuitText(s)) == Some(s)
    ensures ' ' !in RankText(r)
  {
  }

  /** The position of the first blank in a string (its length if there is none). */
  function FirstSpace(s: string): nat
  {
    if s == [] || s[0] == ' ' then 0 else 1 + FirstSpace(s[1..])
  }

  lemma {:induction false} FirstSpaceAfterWord(x: string, t: string)
    requires ' ' !in x
    ensures FirstSpace(x + t) == |x| + FirstSpace(t)
  {
    if x != [] {
      assert (x + t)[1..] == x[1..] + t;
      FirstSpaceAfterWord(x[1..], t);
    } else {
      assert x + t == t;
    }
  }

  /** Joining two blank-free words with " of " can be undone. */
  lemma SplitOf(x: string, z: string, y: string, w: string)
    requires ' ' !in x && ' ' !in y
    requires x + " of " + z == y + " of " + w
    ensures x == y && z == w
  {
    var l, r := x + " of " + z, y + " of " + w;
    assert l == x + (" of " + z) && r == y + (" of " + w);
    FirstSpaceAfterWord(x, " of " + z);
    FirstSpaceAfterWord(y, " of " + w);
    assert x == l[..|x|] && y == r[..|y|];
    assert z == l[|x| + 4..] && w == r[|y| + 4..];
  }

  /** The text of a card names exactly one card. */
  lemma CardTextInjective(a: Card, b: Card)
    requires CardText(a) == CardText(b)
    ensures a == b
  {
    TextRoundTrip(a.rank, a.suit);
    TextRoundTrip(b.rank, b.suit);
    SplitOf(RankText(a.rank), SuitText(a.suit), RankText(b.rank), SuitText(b.suit));
  }

  /**
    `Deck.reset` before shuffling: `[Card(rank, suit) for suit in Suit for
    rank in Rank]`, so position 13 * s + r holds rank r of suit s.
   */
  function FullDeck(): (d: seq<Card>)
    ensures |d| == 52
  {
    seq(52, i requires 0 <= i < 52 => Card(AllRanks[i % 13], AllSuits[i / 13]))
  }

  /** The position of a card in the fresh deck. */
  function DeckIndex(c: Card): (k: nat)
  {
    13 * SuitIndex(c.suit) + (RankValue(c.rank) - 2)
  }

  lemma FullDeckAt(c: Card)
    ensures DeckIndex(c) < 52 && FullDeck()[DeckIndex(c)] == c
  {
    var k := DeckIndex(c);
    var s, r := SuitIndex(c.suit), RankValue(c.rank) - 2;
    assert k / 13 == s && k % 13 == r;
    AllRanksValues(r);
    RankValueInjective(AllRanks[r], c.rank);
  }

  /** The fresh deck holds every card exactly once. */
  lemma FullDeckExactlyOnce(c: Card)
    ensures multiset(FullDeck())[c] == 1
  {
    FullDeckAt(c);
    assert Distinct(FullDeck()) by {
      forall i, j | 0 <= i < j < 52
        ensures FullDeck()[i] != FullDeck()[j]
      {
        AllRanksValues(i % 13);
        AllRanksValues(j % 13);
        AllSuitsIndex(i / 13);
        AllSuitsIndex(j / 13);
      }
    }
    DistinctCountOne(FullDeck(), c);
  }
}
