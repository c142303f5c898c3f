/**
  `HandRank` and `HandEvaluator._score_five_cards`: the category and kicker
  list of exactly five cards, and the order in which two scores compare.
 */
module HandScore {
  import opened Ordering
  import opened Lists
  import opened Cards

  /** The `HandRank` constants. */
  const HighCard: int := 1
  const Pair: int := 2
  const TwoPair: int := 3
  const ThreeOfAKind: int := 4
  const Straight: int := 5
  const Flush: int := 6
  const FullHouse: int := 7
  const FourOfAKind: int := 8
  const StraightFlush: int := 9
  const RoyalFlush: int := 10

  /** `HandRank.to_string`. */
  function HandRankName(rank: int): string
  {
    if rank == 1 then "High Card"
    else if rank == 2 then "Pair"
    else if rank == 3 then "Two Pair"
    else if rank == 4 then "Three of a Kind"
    else if rank == 5 then "Straight"
    else if rank == 6 then "Flush"
    else if rank == 7 then "Full House"
    else if rank == 8 then "Four of a Kind"
    else if rank == 9 then "Straight Flush"
    else if rank == 10 then "Royal Flush"
    else "Unknown"
  }

  /** Each of the ten categories has a name of its own; nothing else has one. */
  lemma HandRankNames(a: int, b: int)
    ensures (1 <= a <= 10) <==> HandRankName(a) != "Unknown"
    ensures 1 <= a <= 10 && 1 <= b <= 10 && HandRankName(a) == HandRankName(b) ==> a == b
  {
  }

  /** The tuple `(category, kickers)` that the evaluator returns. */
  datatype Score = Score(category: int, kickers: seq<int>)

  /** Python's `a < b` on two such tuples. */
  predicate ScoreLess(a: Score, b: Score)
  {
    a.category < b.category || (a.category == b.category && LexLess(a.kickers, b.kickers))
  }

  lemma ScoreLessIrreflexive(a: Score)
    ensures !ScoreLess(a, a)
  {
    LexLessIrreflexive(a.kickers);
  }

  lemma ScoreLessTransitive(a: Score, b: Score, c: Score)
    requires ScoreLess(a, b) && ScoreLess(b, c)
    ensures ScoreLess(a, c)
  {
    if a.category == b.category == c.category {
      LexLessTransitive(a.kickers, b.kickers, c.kickers);
    }
  }

  /** Scores are totally and strictly ordered. */
  lemma ScoreLessTotal(a: Score, b: Score)
    ensures a == b || ScoreLess(a, b) || ScoreLess(b, a)
    ensures !(ScoreLess(a, b) && ScoreLess(b, a))
  {
    LexLessTotal(a.kickers, b.kickers);
    if ScoreLess(a, b) && a.category == b.category {
      LexLessAsymmetric(a.kickers, b.kickers);
    }
  }

  /** `[RANK_VALUES[c.rank] for c in cards]`. */
  function RankValues(cards: seq<Card>): (r: seq<int>)
    ensures |r| == |cards|
    ensures forall i :: 0 <= i < |cards| ==> r[i] == RankValue(cards[i].rank)
  {
    seq(|cards|, i requires 0 <= i < |cards| => RankValue(cards[i].rank))
  }

  /** `set(suits)`. */
  function SuitSet(cards: seq<Card>): set<Suit>
  {
    set c | c in cards :: c.suit
  }

  /** `sorted(ranks, reverse=True)`. */
  function SortedRanks(cards: seq<Card>): seq<int>
  {
    SortDesc(RankValues(cards))
  }

  /** The ranks that `Counter(ranks)` holds exactly `k` times, in key order. */
  function Groups(ranks: seq<int>, k: nat): seq<int>
  {
    WithCount(Dedup(ranks), ranks, k)
  }

  /** The rank set of the ace-low straight. */
  const Wheel: set<int> := {14, 5, 4, 3, 2}

  /** The straight test of `_score_five_cards`, on the sorted rank values. */
  predicate StraightRanks(s: seq<int>)
    requires |s| == 5
  {
    (s[0] - s[4] == 4 && |ToSet(s)| == 5) || ToSet(s) == Wheel
  }

  /** The ranks compared after the ace-low rewrite: the wheel counts its ace as 1. */
  function Rewritten(s: seq<int>): seq<int>
  {
    if ToSet(s) == Wheel then [5, 4, 3, 2, 1] else s
  }

  /** A group's ranks followed by the ranks outside it. */
  function GroupFirst(group: seq<int>, ranks: seq<int>): seq<int>
  {
    group + Without(ranks, group)
  }

  /** `_score_five_cards`. */
  function ScoreFive(cards: seq<Card>): (s: Score)
    requires |cards| == 5
    ensures HighCard <= s.category <= RoyalFlush
  {
    ScoreSorted(SortedRanks(cards), |SuitSet(cards)| == 1)
  }

  /** The body of `_score_five_cards` once the ranks are sorted and the suits tested. */
  function ScoreSorted(sorted: seq<int>, flush: bool): (s: Score)
    requires |sorted| == 5
    ensures HighCard <= s.category <= RoyalFlush
  {
    var straight := StraightRanks(sorted);
    var ranks := Rewritten(sorted);
    var quads, trips, pairs := Groups(sorted, 4), Groups(sorted, 3), Groups(sorted, 2);
    if straight && flush then
      (if ranks[0] == 14 then Score(RoyalFlush, ranks) else Score(StraightFlush, ranks))
    else if quads != [] then Score(FourOfAKind, GroupFirst(quads, ranks))
    else if trips != [] && pairs != [] then Score(FullHouse, trips + pairs)
    else if flush then Score(Flush, ranks)
    else if straight then Score(Straight, ranks)
    else if trips != [] then Score(ThreeOfAKind, GroupFirst(trips, ranks))
    else if |pairs| == 2 then Score(TwoPair, GroupFirst(SortDesc(pairs), ranks))
    else if pairs != [] then Score(Pair, GroupFirst(pairs, ranks))
    else Score(HighCard, ranks)
  }

  // ---------------------------------------------------------------------
  // A reference definition of the category, stated on the multiset of
  // rank values rather than through sorting, counters and set sizes.

  /** How often each rank value occurs among the cards. */
  function RankCounts(cards: seq<Card>): multiset<int>
  {
    multiset(RankValues(cards))
  }

  /** The five rank values of the straight whose top card is `top`. */
  function Run(top: int): multiset<int>
  {
    if top == 5 then multiset{14, 5, 4, 3, 2}
    else multiset{top, top - 1, top - 2, top - 3, top - 4}
  }

  predicate AllSameSuit(cards: seq<Card>)
  {
    forall i :: 0 <= i < |cards| ==> cards[i].suit == cards[0].suit
  }

  ghost predicate IsStraight(cards: seq<Card>)
  {
    exists top :: 5 <= top <= 14 && RankCounts(cards) == Run(top)
  }

  ghost predicate HasCount(cards: seq<Card>, k: nat)
  {
    exists x :: RankCounts(cards)[x] == k
  }

  ghost predicate HasTwoPairs(cards: seq<Card>)
  {
    exists x, y :: x != y && RankCounts(cards)[x] == 2 && RankCounts(cards)[y] == 2
  }

  /** The first category, in order of precedence, that the cards make. */
  ghost function CategoryOf(cards: seq<Card>): int
  {
    if IsStraight(cards) && AllSameSuit(cards) then
      (if RankCounts(cards) == Run(14) then RoyalFlush else StraightFlush)
    else if HasCount(cards, 4) then FourOfAKind
    else if HasCount(cards, 3) && HasCount(cards, 2) then FullHouse
    else if AllSameSuit(cards) then Flush
    else if IsStraight(cards) then Straight
    else if HasCount(cards, 3) then ThreeOfAKind
    else if HasTwoPairs(cards) then TwoPair
    else if HasCount(cards, 2) then Pair
    else HighCard
  }

  lemma RankValuesInRange(cards: seq<Card>, x: int)
    requires x in RankCounts(cards)
    ensures 2 <= x <= 14
  {
    var i :| 0 <= i < |cards| && RankValues(cards)[i] == x;
  }

  /** A single suit in `set(suits)` is the same as every card sharing the first card's suit. */
  lemma {:induction false} FlushIff(cards: seq<Card>)
    requires |cards| == 5
    ensures |SuitSet(cards)| == 1 <==> AllSameSuit(cards)
  {
    if AllSameSuit(cards) {
      assert SuitSet(cards) == {cards[0].suit};
    }
    if |SuitSet(cards)| == 1 {
      var x :| x in SuitSet(cards);
      assert |SuitSet(cards) - {x}| == 0;
      forall i | 0 <= i < |cards|
        ensures cards[i].suit == cards[0].suit
      {
        assert cards[i].suit in SuitSet(cards) && cards[0].suit in SuitSet(cards);
        assert cards[i].suit !in SuitSet(cards) - {x};
        assert cards[0].suit !in SuitSet(cards) - {x};
      }
    }
  }

  /** A sorted list of five rank values whose counts form a run is that run, top first. */
  lemma RunSorted(s: seq<int>, top: int)
    requires |s| == 5 && Desc(s) && 5 <= top <= 14 && multiset(s) == Run(top)
    ensures top == 5 ==> s == [14, 5, 4, 3, 2]
    ensures top != 5 ==> s == [top, top - 1, top - 2, top - 3, top - 4]
  {
    if top == 5 {
      DescUnique(s, [14, 5, 4, 3, 2]);
    } else {
      DescUnique(s, [top, top - 1, top - 2, top - 3, top - 4]);
    }
  }

  /** The wheel's five ranks are different. */
  lemma WheelSet()
    ensures ToSet([14, 5, 4, 3, 2]) == Wheel && |Wheel| == 5
  {
    var w := [14, 5, 4, 3, 2];
    assert forall x :: x in ToSet(w) <==> x in Wheel;
  }

  /** Sorted rank values forming the wheel's set are 14, 5, 4, 3, 2 in that order. */
  lemma WheelSorted(s: seq<int>)
    requires |s| == 5 && Desc(s) && ToSet(s) == Wheel
    ensures s == [14, 5, 4, 3, 2]
  {
    WheelSet();
    DistinctOfSetSize(s);
    assert s[0] > s[1] > s[2] > s[3] > s[4];
    assert s[0] in ToSet(s) && s[1] in ToSet(s) && s[2] in ToSet(s) && s[3] in ToSet(s) && s[4] in ToSet(s);
  }

  /** Five different sorted values spanning four are consecutive. */
  lemma ConsecutiveSorted(s: seq<int>)
    requires |s| == 5 && Desc(s) && s[0] - s[4] == 4 && |ToSet(s)| == 5
    ensures s == [s[0], s[0] - 1, s[0] - 2, s[0] - 3, s[0] - 4]
  {
    DistinctOfSetSize(s);
    assert s[0] > s[1] > s[2] > s[3] > s[4];
  }

  /** The wheel's set is exactly the counts of the ace-low run. */
  lemma WheelIff(s: seq<int>)
    requires |s| == 5 && Desc(s)
    ensures ToSet(s) == Wheel <==> multiset(s) == Run(5)
  {
    if ToSet(s) == Wheel {
      WheelSorted(s);
    }
    if multiset(s) == Run(5) {
      RunSorted(s, 5);
      assert ToSet(s) == Wheel;
    }
  }

  /** Ranks that form a run pass the straight test. */
  lemma StraightOfRun(s: seq<int>, top: int)
    requires |s| == 5 && Desc(s) && 5 <= top <= 14 && multiset(s) == Run(top)
    ensures StraightRanks(s)
  {
    RunSorted(s, top);
    if top == 5 {
      WheelIff(s);
    } else {
      RunSet(top);
    }
  }

  /** A run of five consecutive values holds five different values. */
  lemma RunSet(top: int)
    ensures |ToSet([top, top - 1, top - 2, top - 3, top - 4])| == 5
  {
    var t := {top, top - 1, top - 2, top - 3, top - 4};
    assert ToSet([top, top - 1, top - 2, top - 3, top - 4]) == t;
    assert |t| == 5;
  }

  /** Ranks that pass the straight test are the wheel or the run below their top rank. */
  lemma RunOfStraight(s: seq<int>)
    requires |s| == 5 && Desc(s) && StraightRanks(s)
    requires forall x :: x in s ==> 2 <= x <= 14
    ensures ToSet(s) == Wheel || (6 <= s[0] <= 14 && multiset(s) == Run(s[0]))
  {
    if ToSet(s) != Wheel {
      ConsecutiveSorted(s);
      assert s[4] in s && s[0] in s;
      assert multiset(s) == Run(s[0]);
    }
  }

  /** The straight test holds exactly when the rank values form a run. */
  lemma StraightRanksIff(s: seq<int>)
    requires |s| == 5 && Desc(s)
    requires forall x :: x in s ==> 2 <= x <= 14
    ensures StraightRanks(s) <==> exists top :: 5 <= top <= 14 && multiset(s) == Run(top)
  {
    if StraightRanks(s) {
      RunOfStraight(s);
      WheelIff(s);
      if ToSet(s) == Wheel {
        assert multiset(s) == Run(5);
      } else {
        assert multiset(s) == Run(s[0]);
      }
    }
    if top :| 5 <= top <= 14 && multiset(s) == Run(top) {
      StraightOfRun(s, top);
    }
  }

  /** A rank is in the `k`-group exactly when the counter holds it `k` times. */
  lemma GroupsMember(s: seq<int>, k: nat, x: int)
    requires k >= 1
    ensures x in Groups(s, k) <==> multiset(s)[x] == k
  {
    if multiset(s)[x] == k {
      assert x in s;
      assert x in Dedup(s);
    }
  }

  /** A group for `k` exists exactly when the counter holds `k` somewhere. */
  lemma GroupsIff(s: seq<int>, k: nat)
    requires k >= 1
    ensures Groups(s, k) != [] <==> exists x :: multiset(s)[x] == k
  {
    if Groups(s, k) != [] {
      GroupsMember(s, k, Groups(s, k)[0]);
    }
    if x :| multiset(s)[x] == k {
      GroupsMember(s, k, x);
    }
  }

  /** Over sorted ranks each group lists its ranks high to low. */
  lemma GroupsStrict(s: seq<int>, k: nat)
    requires Desc(s)
    ensures StrictDesc(Groups(s, k))
  {
    DedupOfDesc(s);
    WithCountStrict(Dedup(s), s, k);
  }

  /** Five rank values allow one quad at most, and then no other group. */
  lemma QuadsFacts(s: seq<int>)
    requires |s| == 5 && Desc(s)
    ensures |Groups(s, 4)| <= 1
    ensures Groups(s, 4) != [] ==> Groups(s, 3) == [] && Groups(s, 2) == []
  {
    GroupsStrict(s, 4);
    var q, t, p := Groups(s, 4), Groups(s, 3), Groups(s, 2);
    if |q| >= 2 {
      GroupsMember(s, 4, q[0]);
      GroupsMember(s, 4, q[1]);
      CountPairBound(s, q[0], q[1]);
    }
    if q != [] && t != [] {
      GroupsMember(s, 4, q[0]);
      GroupsMember(s, 3, t[0]);
      CountPairBound(s, q[0], t[0]);
    }
    if q != [] && p != [] {
      GroupsMember(s, 4, q[0]);
      GroupsMember(s, 2, p[0]);
      CountPairBound(s, q[0], p[0]);
    }
  }

  /** Five rank values allow one triple at most, with one pair at most beside it, and two pairs at most. */
  lemma TripsPairsFacts(s: seq<int>)
    requires |s| == 5 && Desc(s)
    ensures |Groups(s, 3)| <= 1 && |Groups(s, 2)| <= 2
    ensures Groups(s, 3) != [] ==> |Groups(s, 2)| <= 1
  {
    var t, p := Groups(s, 3), Groups(s, 2);
    GroupsStrict(s, 3);
    GroupsStrict(s, 2);
    if |t| >= 2 {
      GroupsMember(s, 3, t[0]);
      GroupsMember(s, 3, t[1]);
      CountPairBound(s, t[0], t[1]);
    }
    if |p| >= 3 {
      GroupsMember(s, 2, p[0]);
      GroupsMember(s, 2, p[1]);
      GroupsMember(s, 2, p[2]);
      CountTripleBound(s, p[0], p[1], p[2]);
    }
    if t != [] && |p| >= 2 {
      GroupsMember(s, 3, t[0]);
      GroupsMember(s, 2, p[0]);
      GroupsMember(s, 2, p[1]);
      CountTripleBound(s, t[0], p[0], p[1]);
    }
  }

  /** `list(rank_counts.values()).count(2) == 2` holds exactly when two ranks are paired. */
  lemma TwoPairsIff(s: seq<int>)
    requires |s| == 5 && Desc(s)
    ensures |Groups(s, 2)| == 2 <==>
      exists x, y :: x != y && multiset(s)[x] == 2 && multiset(s)[y] == 2
  {
    TripsPairsFacts(s);
    GroupsStrict(s, 2);
    var p := Groups(s, 2);
    if |p| == 2 {
      GroupsMember(s, 2, p[0]);
      GroupsMember(s, 2, p[1]);
    }
    if x, y :| x != y && multiset(s)[x] == 2 && multiset(s)[y] == 2 {
      GroupsMember(s, 2, x);
      GroupsMember(s, 2, y);
      assert |p| != 1;
    }
  }

  /** The sorted rank values behind a score. */
  lemma SortedFacts(cards: seq<Card>)
    requires |cards| == 5
    ensures var s := SortedRanks(cards);
      |s| == 5 && Desc(s) && multiset(s) == RankCounts(cards) &&
      forall x :: x in s ==> 2 <= x <= 14
  {
    var s := SortedRanks(cards);
    forall x | x in s
      ensures 2 <= x <= 14
    {
      assert x in multiset(s);
      RankValuesInRange(cards, x);
    }
  }

  /** The straight test means that the rank values form a run. */
  lemma StraightIff(cards: seq<Card>)
    requires |cards| == 5
    ensures StraightRanks(SortedRanks(cards)) <==> IsStraight(cards)
  {
    SortedFacts(cards);
    StraightRanksIff(SortedRanks(cards));
  }

  /** A straight's top rank after the wheel rewrite is the ace exactly for the run to the ace. */
  lemma RoyalIff(cards: seq<Card>)
    requires |cards| == 5 && StraightRanks(SortedRanks(cards))
    ensures var s := SortedRanks(cards);
      Rewritten(s)[0] == 14 <==> RankCounts(cards) == Run(14)
  {
    SortedFacts(cards);
    RoyalRanks(SortedRanks(cards));
  }

  /** Sorted ranks passing the straight test compare with an ace on top exactly when they are ten to ace. */
  lemma RoyalRanks(s: seq<int>)
    requires |s| == 5 && Desc(s) && StraightRanks(s)
    requires forall x :: x in s ==> 2 <= x <= 14
    ensures Rewritten(s)[0] == 14 <==> multiset(s) == Run(14)
  {
    WheelIff(s);
    RunOfStraight(s);
    if ToSet(s) == Wheel {
      assert Run(5)[13] == 0 && Run(14)[13] == 1;
    } else {
      assert 14 in Run(14);
    }
  }

  /** The counter tests mean what they are meant to mean. */
  lemma CountTests(cards: seq<Card>)
    requires |cards| == 5
    ensures var s := SortedRanks(cards);
      (Groups(s, 4) != [] <==> HasCount(cards, 4)) &&
      (Groups(s, 3) != [] <==> HasCount(cards, 3)) &&
      (Groups(s, 2) != [] <==> HasCount(cards, 2)) &&
      (|Groups(s, 2)| == 2 <==> HasTwoPairs(cards))
  {
    var s := SortedRanks(cards);
    SortedFacts(cards);
    GroupsIff(s, 4);
    GroupsIff(s, 3);
    GroupsIff(s, 2);
    TwoPairsIff(s);
  }

  /**
    `_score_five_cards` returns the first category, in order of
    precedence, that the cards make: the flush, straight and counter tests
    mean what they are meant to mean, and a royal flush is the straight
    flush to the ace while the wheel straight flush is not royal.
   */
  lemma ScoreFiveCategory(cards: seq<Card>)
    requires |cards| == 5
    ensures ScoreFive(cards).category == CategoryOf(cards)
  {
    FlushIff(cards);
    StraightIff(cards);
    if StraightRanks(SortedRanks(cards)) {
      RoyalIff(cards);
    }
    CountTests(cards);
  }

  // ---------------------------------------------------------------------
  // Kicker lists.

  /** Ranks not in a group, among five sorted values, that occur once each come out strictly descending. */
  lemma RestStrict(s: seq<int>, g: seq<int>)
    requires Desc(s)
    requires forall x :: x in s && x !in g ==> multiset(s)[x] == 1
    ensures StrictDesc(Without(s, g))
  {
    var w := Without(s, g);
    WithoutDesc(s, g);
    forall x | x in w
      ensures multiset(w)[x] == 1
    {
    }
    StrictOfCountOne(w);
  }

  /** A rank that is neither quadrupled, tripled nor paired occurs once or five times. */
  lemma OnceOrFive(s: seq<int>, x: int)
    requires |s| == 5 && x in s
    requires Groups(s, 4) == [] && Groups(s, 3) == [] && Groups(s, 2) == []
    ensures multiset(s)[x] == 1 || multiset(s)[x] == 5
  {
    GroupsMember(s, 4, x);
    GroupsMember(s, 3, x);
    GroupsMember(s, 2, x);
    assert multiset(s)[x] <= 5;
  }

  /** The score's kicker list in each category, as `_score_five_cards` builds it. */
  lemma ScoreSortedCases(s: seq<int>, flush: bool)
    requires |s| == 5
    ensures var sc := ScoreSorted(s, flush);
      var q, t, p := Groups(s, 4), Groups(s, 3), Groups(s, 2);
      (sc.category in {Straight, Flush, StraightFlush, RoyalFlush, HighCard} ==> sc.kickers == Rewritten(s)) &&
      (sc.category == FourOfAKind ==> q != [] && sc.kickers == GroupFirst(q, Rewritten(s))) &&
      (sc.category == FullHouse ==> t != [] && p != [] && sc.kickers == t + p) &&
      (sc.category == ThreeOfAKind ==>
         !StraightRanks(s) && q == [] && p == [] && t != [] && sc.kickers == GroupFirst(t, s)) &&
      (sc.category == TwoPair ==>
         !StraightRanks(s) && q == [] && t == [] && |p| == 2 && sc.kickers == GroupFirst(SortDesc(p), s)) &&
      (sc.category == Pair ==>
         !StraightRanks(s) && q == [] && t == [] && p != [] && |p| != 2 && sc.kickers == GroupFirst(p, s)) &&
      (sc.category == HighCard ==> !StraightRanks(s) && !flush && q == [] && t == [] && p == []) &&
      (sc.category == Flush ==> !StraightRanks(s) && flush)
  {
    if !StraightRanks(s) {
      assert Rewritten(s) == s;
    }
  }

  /** Five sorted values with the wheel's set occur once each. */
  lemma WheelCounts(s: seq<int>)
    requires |s| == 5 && Desc(s)
    ensures ToSet(s) == Wheel ==> forall x :: multiset(s)[x] <= 1
  {
    if ToSet(s) == Wheel {
      WheelSorted(s);
    }
  }

  /** A group of one rank: that rank, held `k` times. */
  lemma SingleGroup(s: seq<int>, k: nat)
    requires k >= 1 && |Groups(s, k)| == 1
    ensures Groups(s, k) == [Groups(s, k)[0]] && multiset(s)[Groups(s, k)[0]] == k
  {
    GroupsMember(s, k, Groups(s, k)[0]);
  }

  /** With a quadrupled rank: that rank, then the fifth card's rank. */
  lemma QuadsGroup(s: seq<int>)
    requires |s| == 5 && Desc(s) && Groups(s, 4) != []
    ensures var k := GroupFirst(Groups(s, 4), s);
      |k| == 2 && multiset(s)[k[0]] == 4 && multiset(s)[k[1]] == 1
  {
    QuadsFacts(s);
    SingleGroup(s, 4);
    QuadFirst(s, Groups(s, 4)[0]);
  }

  /** A rank held four times of five: that rank, then the fifth card's rank, held once. */
  lemma QuadFirst(s: seq<int>, x: int)
    requires |s| == 5 && multiset(s)[x] == 4
    ensures var k := GroupFirst([x], s); |k| == 2 && multiset(s)[k[1]] == 1
  {
    var w := Without(s, [x]);
    WithoutOneLength(s, x);
    assert w[0] in w;
    assert multiset(w)[w[0]] == 1;
  }

  /** Four of a kind: the quadrupled rank, then the fifth card's rank. */
  lemma QuadsShape(s: seq<int>, flush: bool)
    requires |s| == 5 && Desc(s) && ScoreSorted(s, flush).category == FourOfAKind
    ensures var k := ScoreSorted(s, flush).kickers;
      |k| == 2 && multiset(s)[k[0]] == 4 && multiset(s)[k[1]] == 1
  {
    ScoreSortedCases(s, flush);
    QuadsGroup(s);
    WheelCounts(s);
    GroupsMember(s, 4, Groups(s, 4)[0]);
    assert Rewritten(s) == s;
  }

  /** With a triple and nothing paired, every other rank occurs once. */
  lemma TripsRestOnce(s: seq<int>)
    requires |s| == 5
    requires Groups(s, 4) == [] && |Groups(s, 3)| == 1 && Groups(s, 2) == []
    ensures forall x :: x in s && x !in Groups(s, 3) ==> multiset(s)[x] == 1
  {
    var t := Groups(s, 3);
    SingleGroup(s, 3);
    forall x | x in s && x !in t
      ensures multiset(s)[x] == 1
    {
      GroupsMember(s, 4, x);
      GroupsMember(s, 3, x);
      GroupsMember(s, 2, x);
      CountPairBound(s, x, t[0]);
    }
  }

  /** With a triple and nothing paired: the tripled rank, then the other two high to low. */
  lemma TripsGroup(s: seq<int>)
    requires |s| == 5 && Desc(s)
    requires Groups(s, 4) == [] && Groups(s, 3) != [] && Groups(s, 2) == []
    ensures var k := GroupFirst(Groups(s, 3), s);
      |k| == 3 && multiset(s)[k[0]] == 3 && multiset(s)[k[1]] == 1 && multiset(s)[k[2]] == 1 &&
      k[1] > k[2]
  {
    TripsPairsFacts(s);
    SingleGroup(s, 3);
    TripsRestOnce(s);
    TripleFirst(s, Groups(s, 3)[0]);
  }

  /** A rank held three times, the others once each: that rank, then the other two high to low. */
  lemma TripleFirst(s: seq<int>, x: int)
    requires |s| == 5 && Desc(s) && multiset(s)[x] == 3
    requires forall y :: y in s && y !in [x] ==> multiset(s)[y] == 1
    ensures var k := GroupFirst([x], s);
      |k| == 3 && multiset(s)[k[1]] == 1 && multiset(s)[k[2]] == 1 && k[1] > k[2]
  {
    RestStrict(s, [x]);
    var w := Without(s, [x]);
    WithoutOneLength(s, x);
    assert w[0] in w && w[1] in w;
  }

  /** With two pairs: the higher pair, the lower pair, then the odd card. */
  lemma TwoPairGroup(s: seq<int>)
    requires |s| == 5 && Desc(s)
    requires Groups(s, 4) == [] && Groups(s, 3) == [] && |Groups(s, 2)| == 2
    ensures var k := GroupFirst(SortDesc(Groups(s, 2)), s);
      |k| == 3 && k[0] > k[1] &&
      multiset(s)[k[0]] == 2 && multiset(s)[k[1]] == 2 && multiset(s)[k[2]] == 1
  {
    var p := Groups(s, 2);
    GroupsStrict(s, 2);
    SortDescOfDesc(p);
    GroupsMember(s, 2, p[0]);
    GroupsMember(s, 2, p[1]);
    assert p == [p[0], p[1]];
    TwoPairFirst(s, p[0], p[1]);
  }

  /** Two different ranks held twice each: those two, then the odd card's rank, held once. */
  lemma TwoPairFirst(s: seq<int>, x: int, y: int)
    requires |s| == 5 && x != y && multiset(s)[x] == 2 && multiset(s)[y] == 2
    ensures var k := GroupFirst([x, y], s); |k| == 3 && multiset(s)[k[2]] == 1
  {
    var w := Without(s, [x, y]);
    WithoutTwoLength(s, x, y);
    assert w[0] in w;
    assert multiset(w)[w[0]] == 1;
  }

  /** With one pair and no other group, every other rank occurs once. */
  lemma PairRestOnce(s: seq<int>, x: int)
    requires |s| == 5 && Groups(s, 4) == [] && Groups(s, 3) == [] && |Groups(s, 2)| == 1
    requires x in s && x !in Groups(s, 2)
    ensures multiset(s)[x] == 1
  {
    var y := Groups(s, 2)[0];
    GroupsMember(s, 2, y);
    GroupsMember(s, 4, x);
    GroupsMember(s, 3, x);
    GroupsMember(s, 2, x);
    CountPairBound(s, x, y);
  }

  /** With one pair: the paired rank, then the other three high to low. */
  lemma PairGroup(s: seq<int>)
    requires |s| == 5 && Desc(s)
    requires Groups(s, 4) == [] && Groups(s, 3) == [] && Groups(s, 2) != [] && |Groups(s, 2)| != 2
    ensures var k := GroupFirst(Groups(s, 2), s);
      |k| == 4 && multiset(s)[k[0]] == 2 &&
      multiset(s)[k[1]] == 1 && multiset(s)[k[2]] == 1 && multiset(s)[k[3]] == 1 &&
      k[1] > k[2] > k[3]
  {
    TripsPairsFacts(s);
    SingleGroup(s, 2);
    forall y | y in s && y !in Groups(s, 2)
      ensures multiset(s)[y] == 1
    {
      PairRestOnce(s, y);
    }
    PairFirst(s, Groups(s, 2)[0]);
  }

  /** A rank held twice, the others once each: that rank, then the other three high to low. */
  lemma PairFirst(s: seq<int>, x: int)
    requires |s| == 5 && Desc(s) && multiset(s)[x] == 2
    requires forall y :: y in s && y !in [x] ==> multiset(s)[y] == 1
    ensures var k := GroupFirst([x], s);
      |k| == 4 && multiset(s)[k[1]] == 1 && multiset(s)[k[2]] == 1 && multiset(s)[k[3]] == 1 &&
      k[1] > k[2] > k[3]
  {
    RestStrict(s, [x]);
    var w := Without(s, [x]);
    WithoutOneLength(s, x);
    assert w[0] in w && w[1] in w && w[2] in w;
  }

  /** A full house: the tripled rank, then the paired rank. */
  lemma FullHouseGroup(s: seq<int>)
    requires |s| == 5 && Desc(s) && Groups(s, 3) != [] && Groups(s, 2) != []
    ensures var k := Groups(s, 3) + Groups(s, 2);
      |k| == 2 && multiset(s)[k[0]] == 3 && multiset(s)[k[1]] == 2
  {
    TripsPairsFacts(s);
    GroupsMember(s, 3, Groups(s, 3)[0]);
    GroupsMember(s, 2, Groups(s, 2)[0]);
  }

  /** A straight's compared ranks descend one step at a time. */
  lemma StraightGroup(s: seq<int>)
    requires |s| == 5 && Desc(s) && StraightRanks(s)
    ensures var k := Rewritten(s);
      |k| == 5 && forall i :: 0 <= i < 4 ==> k[i] == k[i + 1] + 1
  {
    if ToSet(s) != Wheel {
      ConsecutiveSorted(s);
    }
  }

  /**
    The kicker list of each category: grouped ranks first (the higher pair
    first in two pair), the remaining ranks after them high to low, and a
    grouped rank never again among the rest; flush and high card list the
    five sorted ranks; a straight lists its own sorted ranks, which
    descend one step at a time, except the wheel, which lists 5, 4, 3, 2, 1.
   */
  lemma ScoreFiveKickers(cards: seq<Card>)
    requires |cards| == 5
    ensures var sc := ScoreFive(cards); var k := sc.kickers; var m := RankCounts(cards);
      (sc.category == FourOfAKind ==> |k| == 2 && m[k[0]] == 4 && m[k[1]] == 1) &&
      (sc.category == FullHouse ==> |k| == 2 && m[k[0]] == 3 && m[k[1]] == 2) &&
      (sc.category == ThreeOfAKind ==>
         |k| == 3 && m[k[0]] == 3 && m[k[1]] == 1 && m[k[2]] == 1 && k[1] > k[2]) &&
      (sc.category == TwoPair ==>
         |k| == 3 && k[0] > k[1] && m[k[0]] == 2 && m[k[1]] == 2 && m[k[2]] == 1) &&
      (sc.category == Pair ==>
         |k| == 4 && m[k[0]] == 2 && m[k[1]] == 1 && m[k[2]] == 1 && m[k[3]] == 1 &&
         k[1] > k[2] > k[3]) &&
      (sc.category == Flush || sc.category == HighCard ==> k == SortedRanks(cards)) &&
      (sc.category in {Straight, StraightFlush, RoyalFlush} ==>
         |k| == 5 && (forall i :: 0 <= i < 4 ==> k[i] == k[i + 1] + 1) &&
         k == if m == Run(5) then [5, 4, 3, 2, 1] else SortedRanks(cards))
  {
    SortedFacts(cards);
    SortedKickers(SortedRanks(cards), |SuitSet(cards)| == 1);
    ScoreSortedCases(SortedRanks(cards), |SuitSet(cards)| == 1);
    WheelIff(SortedRanks(cards));
  }

  /** `ScoreFiveKickers` on the sorted rank values. */
  lemma SortedKickers(s: seq<int>, flush: bool)
    requires |s| == 5 && Desc(s)
    ensures var sc := ScoreSorted(s, flush); var k := sc.kickers; var m := multiset(s);
      (sc.category == FourOfAKind ==> |k| == 2 && m[k[0]] == 4 && m[k[1]] == 1) &&
      (sc.category == FullHouse ==> |k| == 2 && m[k[0]] == 3 && m[k[1]] == 2) &&
      (sc.category == ThreeOfAKind ==>
         |k| == 3 && m[k[0]] == 3 && m[k[1]] == 1 && m[k[2]] == 1 && k[1] > k[2]) &&
      (sc.category == TwoPair ==>
         |k| == 3 && k[0] > k[1] && m[k[0]] == 2 && m[k[1]] == 2 && m[k[2]] == 1) &&
      (sc.category == Pair ==>
         |k| == 4 && m[k[0]] == 2 && m[k[1]] == 1 && m[k[2]] == 1 && m[k[3]] == 1 &&
         k[1] > k[2] > k[3]) &&
      (sc.category == Flush || sc.category == HighCard ==> k == s) &&
      (sc.category in {Straight, StraightFlush, RoyalFlush} ==>
         |k| == 5 && forall i :: 0 <= i < 4 ==> k[i] == k[i + 1] + 1)
  {
    var sc := ScoreSorted(s, flush);
    ScoreSortedCases(s, flush);
    if sc.category == FourOfAKind {
      QuadsShape(s, flush);
    } else if sc.category == FullHouse {
      FullHouseGroup(s);
    } else if sc.category == ThreeOfAKind {
      TripsGroup(s);
    } else if sc.category == TwoPair {
      TwoPairGroup(s);
    } else if sc.category == Pair {
      PairGroup(s);
    } else if sc.category in {Straight, StraightFlush, RoyalFlush} {
      assert StraightRanks(s);
      StraightGroup(s);
    }
  }

  /** Among five cards two share a suit: there are only four. */
  lemma SuitRepeats(cards: seq<Card>)
    requires |cards| == 5
    ensures exists i, j :: 0 <= i < j < 5 && cards[i].suit == cards[j].suit
  {
    var a, b, c, d, e := cards[0].suit, cards[1].suit, cards[2].suit, cards[3].suit, cards[4].suit;
    assert a == b || a == c || a == d || a == e || b == c || b == d || b == e || c == d || c == e || d == e;
  }

  /** Five different cards never share one rank. */
  lemma NoFiveOfARank(cards: seq<Card>, x: int)
    requires |cards| == 5 && Distinct(cards)
    ensures RankCounts(cards)[x] < 5
  {
    SuitRepeats(cards);
    var i, j :| 0 <= i < j < 5 && cards[i].suit == cards[j].suit;
    var r := RankValues(cards);
    RankValueRoundTrip(cards[i].rank, 0);
    RankValueRoundTrip(cards[j].rank, 0);
    assert r[i] != r[j];
    var y := if r[i] != x then r[i] else r[j];
    assert y in r;
    CountPairBound(r, x, y);
  }

  /** Different cards of one suit have different ranks. */
  lemma SuitedRanksDistinct(cards: seq<Card>)
    requires Distinct(cards) && AllSameSuit(cards)
    ensures Distinct(RankValues(cards))
  {
    var r := RankValues(cards);
    forall i, j | 0 <= i < j < |r|
      ensures r[i] != r[j]
    {
      RankValueRoundTrip(cards[i].rank, 0);
      RankValueRoundTrip(cards[j].rank, 0);
    }
  }

  /** Five different cards scored as a flush or a high card list five different ranks. */
  lemma DistinctKickers(cards: seq<Card>)
    requires |cards| == 5 && Distinct(cards)
    requires ScoreFive(cards).category == Flush || ScoreFive(cards).category == HighCard
    ensures StrictDesc(ScoreFive(cards).kickers)
  {
    var s := SortedRanks(cards);
    var flush := |SuitSet(cards)| == 1;
    SortedFacts(cards);
    ScoreSortedCases(s, flush);
    ScoreFiveKickers(cards);
    if flush {
      FlushIff(cards);
      SuitedRanksDistinct(cards);
      forall x | x in s
        ensures multiset(s)[x] == 1
      {
        assert x in multiset(RankValues(cards));
        DistinctCountOne(RankValues(cards), x);
      }
    } else {
      forall x | x in s
        ensures multiset(s)[x] == 1
      {
        OnceOrFive(s, x);
        NoFiveOfARank(cards, x);
      }
    }
    StrictOfCountOne(s);
  }

  // ---------------------------------------------------------------------
  // Order of the cards does not matter.

  lemma RankValuesAppend(a: seq<Card>, b: seq<Card>)
    ensures RankValues(a + b) == RankValues(a) + RankValues(b)
  {
  }

  /** Reordering the cards reorders their rank values. */
  lemma {:induction false} RankValuesPermutation(a: seq<Card>, b: seq<Card>)
    requires multiset(a) == multiset(b)
    ensures multiset(RankValues(a)) == multiset(RankValues(b))
    decreases |a|
  {
    if a != [] {
      var c := a[0];
      assert c in multiset(b);
      var k :| 0 <= k < |b| && b[k] == c;
      var rest := b[..k] + b[k + 1..];
      RemoveAt(b, k);
      RemoveFirst(a);
      Cancel(multiset(a[1..]), multiset(rest), c);
      RankValuesPermutation(a[1..], rest);
    }
  }

  /** Adding the same element to two multisets keeps them apart or equal. */
  lemma Cancel<T>(m1: multiset<T>, m2: multiset<T>, c: T)
    requires m1 + multiset{c} == m2 + multiset{c}
    ensures m1 == m2
  {
    assert m1 == (m1 + multiset{c}) - multiset{c};
  }

  /** The first card and its rank value head the cards and the rank values. */
  lemma RemoveFirst(a: seq<Card>)
    requires a != []
    ensures multiset(a) == multiset(a[1..]) + multiset{a[0]} &&
      multiset(RankValues(a)) == multiset(RankValues(a[1..])) + multiset{RankValue(a[0].rank)}
  {
    assert a == [a[0]] + a[1..];
    RankValuesAppend([a[0]], a[1..]);
    assert RankValues([a[0]]) == [RankValue(a[0].rank)];
  }

  /** Taking the card at `k` out of the cards takes its rank value out of the rank values. */
  lemma RemoveAt(b: seq<Card>, k: nat)
    requires k < |b|
    ensures var rest := b[..k] + b[k + 1..];
      multiset(b) == multiset(rest) + multiset{b[k]} &&
      multiset(RankValues(b)) == multiset(RankValues(rest)) + multiset{RankValue(b[k].rank)}
  {
    assert b == b[..k] + [b[k]] + b[k + 1..];
    assert RankValues([b[k]]) == [RankValue(b[k].rank)];
    RankValuesAppend(b[..k] + [b[k]], b[k + 1..]);
    RankValuesAppend(b[..k], [b[k]]);
    RankValuesAppend(b[..k], b[k + 1..]);
  }

  /** `_score_five_cards` depends only on which cards it is given, not on their order. */
  lemma ScoreFivePermutation(a: seq<Card>, b: seq<Card>)
    requires |a| == 5 && multiset(a) == multiset(b)
    ensures |b| == 5 && ScoreFive(a) == ScoreFive(b)
  {
    assert |b| == |multiset(b)| == |multiset(a)| == |a|;
    RankValuesPermutation(a, b);
    DescUnique(SortedRanks(a), SortedRanks(b));
    assert SuitSet(a) == SuitSet(b) by {
      forall x | x in SuitSet(a)
        ensures x in SuitSet(b)
      {
        var c :| c in a && c.suit == x;
        assert c in multiset(b);
      }
      forall x | x in SuitSet(b)
        ensures x in SuitSet(a)
      {
        var c :| c in b && c.suit == x;
        assert c in multiset(a);
      }
    }
  }

  /** A royal flush is exactly one suit holding ten to ace. */
  lemma RoyalFlushIff(cards: seq<Card>)
    requires |cards| == 5
    ensures ScoreFive(cards).category == RoyalFlush <==>
      AllSameSuit(cards) && RankCounts(cards) == Run(14)
  {
    ScoreFiveCategory(cards);
    RoyalCategory(cards);
  }

  lemma RoyalCategory(cards: seq<Card>)
    ensures CategoryOf(cards) == RoyalFlush ==> AllSameSuit(cards) && RankCounts(cards) == Run(14)
    ensures AllSameSuit(cards) && RankCounts(cards) == Run(14) ==> CategoryOf(cards) == RoyalFlush
  {
    if AllSameSuit(cards) && RankCounts(cards) == Run(14) {
      assert IsStraight(cards);
    }
  }

  /** The suited wheel is a straight flush to the five, never a royal flush. */
  lemma WheelStraightFlush(cards: seq<Card>)
    requires |cards| == 5 && AllSameSuit(cards) && RankCounts(cards) == Run(5)
    ensures ScoreFive(cards) == Score(StraightFlush, [5, 4, 3, 2, 1])
  {
    SortedFacts(cards);
    FlushIff(cards);
    WheelScore(SortedRanks(cards));
  }

  /** Sorted ranks 14, 5, 4, 3, 2 of one suit score a straight flush with the ace counted low. */
  lemma WheelScore(s: seq<int>)
    requires |s| == 5 && Desc(s) && multiset(s) == Run(5)
    ensures ScoreSorted(s, true) == Score(StraightFlush, [5, 4, 3, 2, 1])
  {
    WheelIff(s);
  }
}
