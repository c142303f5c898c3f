/**
  `HandEvaluator.evaluate` and `_get_best_hand`: the best score among all
  five-card subsets of the cards, in the order `itertools.combinations`
  produces them.
 */
module HandEvaluator {
  import opened Cards
  import opened HandScore

  /** `[x] + c` for every `c` in `cs`, in order. */
  function Prepend<T>(x: T, cs: seq<seq<T>>): (r: seq<seq<T>>)
    ensures |r| == |cs|
    ensures forall i :: 0 <= i < |cs| ==> r[i] == [x] + cs[i]
  {
    seq(|cs|, i requires 0 <= i < |cs| => [x] + cs[i])
  }

  /**
    `itertools.combinations(s, k)`: every choice of `k` positions, in
    lexicographic order of positions, so those holding `s[0]` come first.
   */
  function Combinations<T>(s: seq<T>, k: nat): (r: seq<seq<T>>)
    ensures forall i :: 0 <= i < |r| ==> |r[i]| == k
    decreases |s|
  {
    if k == 0 then [[]]
    else if s == [] then []
    else
      var with, without := Prepend(s[0], Combinations(s[1..], k - 1)), Combinations(s[1..], k);
      assert forall i :: |with| <= i < |with| + |without| ==> (with + without)[i] == without[i - |with|];
      with + without
  }

  /** The binomial coefficient. */
  function Choose(n: nat, k: nat): nat
  {
    if k == 0 then 1 else if n == 0 then 0 else Choose(n - 1, k - 1) + Choose(n - 1, k)
  }

  /** There are `n` choose `k` combinations. */
  lemma {:induction false} CombinationsCount<T>(s: seq<T>, k: nat)
    ensures |Combinations(s, k)| == Choose(|s|, k)
    decreases |s|
  {
    if k != 0 && s != [] {
      CombinationsCount(s[1..], k - 1);
      CombinationsCount(s[1..], k);
    }
  }

  lemma ChooseSevenFive()
    ensures Choose(7, 5) == 21
  {
    assert Choose(1, 1) == 1 && Choose(2, 1) == 2 && Choose(3, 1) == 3;
    assert Choose(2, 2) == 1 && Choose(3, 2) == 3 && Choose(4, 2) == 6;
    assert Choose(3, 3) == 1 && Choose(4, 3) == 4 && Choose(5, 3) == 10;
    assert Choose(4, 4) == 1 && Choose(5, 4) == 5 && Choose(6, 4) == 15;
    assert Choose(5, 5) == 1 && Choose(6, 5) == 6;
  }

  /** Seven cards, the two hole cards and five on the board, give 21 hands. */
  lemma SevenCardsGiveTwentyOne<T>(s: seq<T>)
    requires |s| == 7
    ensures |Combinations(s, 5)| == 21
  {
    CombinationsCount(s, 5);
    ChooseSevenFive();
  }

  /** The combinations holding the first card, then those without it. */
  lemma CombinationsSplit<T>(s: seq<T>, k: nat)
    requires k != 0 && s != []
    ensures var sub, without := Combinations(s[1..], k - 1), Combinations(s[1..], k);
      |Combinations(s, k)| == |sub| + |without| &&
      (forall i :: 0 <= i < |sub| ==> Combinations(s, k)[i] == [s[0]] + sub[i]) &&
      (forall j :: 0 <= j < |without| ==> Combinations(s, k)[|sub| + j] == without[j])
  {
  }

  /** Every combination is drawn from the cards. */
  lemma {:induction false} CombinationsSub<T>(s: seq<T>, k: nat, c: seq<T>)
    requires c in Combinations(s, k)
    ensures multiset(c) <= multiset(s)
    decreases |s|
  {
    if k != 0 && s != [] {
      var with, without := Prepend(s[0], Combinations(s[1..], k - 1)), Combinations(s[1..], k);
      assert Combinations(s, k) == with + without;
      if c in without {
        CombinationsSub(s[1..], k, c);
        DrawnFromRest(s, c);
      } else {
        var i :| 0 <= i < |with| && c == with[i];
        var d := Combinations(s[1..], k - 1)[i];
        CombinationsSub(s[1..], k - 1, d);
        DrawnWithFirst(s, d);
      }
    }
  }

  /** What is drawn from all but the first element is drawn from all of them. */
  lemma DrawnFromRest<T>(s: seq<T>, c: seq<T>)
    requires s != [] && multiset(c) <= multiset(s[1..])
    ensures multiset(c) <= multiset(s)
  {
    assert s == [s[0]] + s[1..];
  }

  /** The first element followed by what is drawn from the others is drawn from all of them. */
  lemma DrawnWithFirst<T>(s: seq<T>, d: seq<T>)
    requires s != [] && multiset(d) <= multiset(s[1..])
    ensures multiset([s[0]] + d) <= multiset(s)
  {
    assert s == [s[0]] + s[1..];
    assert multiset(s) == multiset{s[0]} + multiset(s[1..]);
    assert multiset([s[0]] + d) == multiset{s[0]} + multiset(d);
  }

  /** A choice holding the first card comes from a choice among the rest. */
  lemma CompleteWithFirst<T>(s: seq<T>, k: nat, m: multiset<T>, i: nat)
    requires k != 0 && s != [] && s[0] in m
    requires i < |Combinations(s[1..], k - 1)|
    requires multiset(Combinations(s[1..], k - 1)[i]) == m - multiset{s[0]}
    ensures i < |Combinations(s, k)| && multiset(Combinations(s, k)[i]) == m
  {
    CombinationsSplit(s, k);
    var c := Combinations(s[1..], k - 1)[i];
    assert multiset([s[0]] + c) == multiset{s[0]} + multiset(c);
  }

  /** A choice without the first card is a choice among the rest. */
  lemma CompleteWithoutFirst<T>(s: seq<T>, k: nat, m: multiset<T>, j: nat)
    requires k != 0 && s != []
    requires j < |Combinations(s[1..], k)| && multiset(Combinations(s[1..], k)[j]) == m
    ensures var i := |Combinations(s[1..], k - 1)| + j;
      i < |Combinations(s, k)| && multiset(Combinations(s, k)[i]) == m
  {
    CombinationsSplit(s, k);
  }

  /** Without the first card, a choice from the cards is a choice from the rest. */
  lemma SubOfRest<T>(s: seq<T>, m: multiset<T>)
    requires s != [] && m <= multiset(s) && s[0] !in m
    ensures m <= multiset(s[1..])
  {
    assert s == [s[0]] + s[1..];
    assert multiset(s) == multiset{s[0]} + multiset(s[1..]);
    forall x
      ensures m[x] <= multiset(s[1..])[x]
    {
    }
  }

  /** Every choice of `k` of the cards is some combination, up to order. */
  lemma {:induction false} CombinationsComplete<T>(s: seq<T>, k: nat, m: multiset<T>)
    requires m <= multiset(s) && |m| == k
    ensures exists i :: 0 <= i < |Combinations(s, k)| && multiset(Combinations(s, k)[i]) == m
    decreases |s|, 1
  {
    if k == 0 {
      assert m == multiset{};
      assert multiset(Combinations(s, k)[0]) == m;
    } else {
      NonEmptyOfSub(s, m);
      if s[0] in m {
        CompleteHolding(s, k, m);
      } else {
        CompleteLacking(s, k, m);
      }
    }
  }

  /** A choice holding the first card is found among the combinations that start with it. */
  lemma {:induction false} CompleteHolding<T>(s: seq<T>, k: nat, m: multiset<T>)
    requires k != 0 && s != [] && s[0] in m && m <= multiset(s) && |m| == k
    ensures exists i :: 0 <= i < |Combinations(s, k)| && multiset(Combinations(s, k)[i]) == m
    decreases |s|, 0
  {
    var rest := m - multiset{s[0]};
    RestOfFirst(s, m);
    CombinationsComplete(s[1..], k - 1, rest);
    var i :| 0 <= i < |Combinations(s[1..], k - 1)| && multiset(Combinations(s[1..], k - 1)[i]) == rest;
    CompleteWithFirst(s, k, m, i);
  }

  /** A choice without the first card is found among the combinations that skip it. */
  lemma {:induction false} CompleteLacking<T>(s: seq<T>, k: nat, m: multiset<T>)
    requires k != 0 && s != [] && s[0] !in m && m <= multiset(s) && |m| == k
    ensures exists i :: 0 <= i < |Combinations(s, k)| && multiset(Combinations(s, k)[i]) == m
    decreases |s|, 0
  {
    SubOfRest(s, m);
    CombinationsComplete(s[1..], k, m);
    var j :| 0 <= j < |Combinations(s[1..], k)| && multiset(Combinations(s[1..], k)[j]) == m;
    CompleteWithoutFirst(s, k, m, j);
  }

  /** A non-empty choice from the cards needs cards to choose from. */
  lemma NonEmptyOfSub<T>(s: seq<T>, m: multiset<T>)
    requires m <= multiset(s) && |m| > 0
    ensures s != []
  {
    if s == [] {
      assert false;
    }
  }

  /** Taking the first card out of a choice that holds it leaves a choice from the rest. */
  lemma RestOfFirst<T>(s: seq<T>, m: multiset<T>)
    requires s != [] && m <= multiset(s) && s[0] in m
    ensures m - multiset{s[0]} <= multiset(s[1..]) && |m - multiset{s[0]}| == |m| - 1
  {
    assert s == [s[0]] + s[1..];
    assert multiset(s) == multiset{s[0]} + multiset(s[1..]);
    assert m == (m - multiset{s[0]}) + multiset{s[0]};
  }

  /** All hands hold five cards. */
  predicate FiveCardHands(hands: seq<seq<Card>>)
  {
    forall i :: 0 <= i < |hands| ==> |hands[i]| == 5
  }

  /** The better of two scores, keeping the first on a tie as `score > best_score` does. */
  function Better(best: Score, score: Score): Score
  {
    if ScoreLess(best, score) then score else best
  }

  /** Whatever no less than the better of two scores is no less than either. */
  lemma BetterBound(best: Score, score: Score, r: Score)
    requires !ScoreLess(r, Better(best, score))
    ensures !ScoreLess(r, best) && !ScoreLess(r, score)
  {
    ScoreLessTotal(best, score);
    if ScoreLess(r, best) {
      ScoreLessTransitive(r, best, score);
    }
    if ScoreLess(r, score) && !ScoreLess(best, score) {
      ScoreLessTransitive(r, score, best);
    }
  }

  /**
    The loop of `_get_best_hand` from `best` on: a score replaces the best
    so far when it is strictly greater. The result is the start value or
    a hand's score, and no hand's score nor the start value beats it.
   */
  function BestOf(hands: seq<seq<Card>>, best: Score): (r: Score)
    requires FiveCardHands(hands)
    ensures r == best || exists i :: 0 <= i < |hands| && r == ScoreFive(hands[i])
    ensures !ScoreLess(r, best)
    ensures forall i :: 0 <= i < |hands| ==> !ScoreLess(r, ScoreFive(hands[i]))
    decreases |hands|
  {
    if hands == [] then
      ScoreLessIrreflexive(best);
      best
    else
      assert FiveCardHands(hands[1..]);
      var next := Better(best, ScoreFive(hands[0]));
      var r := BestOf(hands[1..], next);
      BestOfStep(hands, best, r);
      r
  }

  /** One step of `BestOf`: what holds after the rest of the hands holds after all of them. */
  lemma BestOfStep(hands: seq<seq<Card>>, best: Score, r: Score)
    requires FiveCardHands(hands) && hands != []
    requires var next := Better(best, ScoreFive(hands[0]));
      (r == next || exists i :: 0 <= i < |hands[1..]| && r == ScoreFive(hands[1..][i])) &&
      !ScoreLess(r, next) &&
      forall i :: 0 <= i < |hands[1..]| ==> !ScoreLess(r, ScoreFive(hands[1..][i]))
    ensures r == best || exists i :: 0 <= i < |hands| && r == ScoreFive(hands[i])
    ensures !ScoreLess(r, best)
    ensures forall i :: 0 <= i < |hands| ==> !ScoreLess(r, ScoreFive(hands[i]))
  {
    BetterBound(best, ScoreFive(hands[0]), r);
    BestOfWitness(hands, best, r);
    forall i | 1 <= i < |hands|
      ensures !ScoreLess(r, ScoreFive(hands[i]))
    {
      assert hands[i] == hands[1..][i - 1];
    }
  }

  /** The score `BestOf` returns after a step is the start value or one hand's score. */
  lemma BestOfWitness(hands: seq<seq<Card>>, best: Score, r: Score)
    requires FiveCardHands(hands) && hands != []
    requires r == Better(best, ScoreFive(hands[0])) ||
      exists i :: 0 <= i < |hands[1..]| && r == ScoreFive(hands[1..][i])
    ensures r == best || exists i :: 0 <= i < |hands| && r == ScoreFive(hands[i])
  {
    if r != best && r != ScoreFive(hands[0]) {
      var i :| 0 <= i < |hands[1..]| && r == ScoreFive(hands[1..][i]);
      assert r == ScoreFive(hands[i + 1]);
    }
  }

  /** The start value of `_get_best_hand`, below every five-card score. */
  const NoHand: Score := Score(-1, [])

  /** `evaluate`: `(0, [])` below five cards, otherwise the best five-card score. */
  function HandValue(cards: seq<Card>): Score
  {
    if |cards| < 5 then Score(0, []) else BestOf(Combinations(cards, 5), NoHand)
  }

  /** `_get_best_hand`. */
  method GetBestHand(cards: seq<Card>) returns (best: Score)
    ensures best == BestOf(Combinations(cards, 5), NoHand)
  {
    var combos := Combinations(cards, 5);
    best := NoHand;
    for i := 0 to |combos|
      invariant BestOf(combos[i..], best) == BestOf(combos, NoHand)
    {
      var score := ScoreFive(combos[i]);
      assert combos[i..][1..] == combos[i + 1..];
      if ScoreLess(best, score) {
        best := score;
      }
    }
  }

  /**
    `evaluate`: `(0, [])` below five cards; otherwise a score that some
    five-card combination reaches and that no combination beats.
   */
  method Evaluate(cards: seq<Card>) returns (s: Score)
    ensures s == HandValue(cards)
    ensures |cards| < 5 ==> s == Score(0, [])
    ensures |cards| >= 5 ==>
      (exists i :: 0 <= i < |Combinations(cards, 5)| && s == ScoreFive(Combinations(cards, 5)[i])) &&
      forall i :: 0 <= i < |Combinations(cards, 5)| ==> !ScoreLess(s, ScoreFive(Combinations(cards, 5)[i]))
  {
    if |cards| < 5 {
      return Score(0, []);
    }
    s := GetBestHand(cards);
    HandValueBest(cards);
  }

  /** With five cards or more the value is the score of a combination that none beats. */
  lemma HandValueBest(cards: seq<Card>)
    requires |cards| >= 5
    ensures exists i :: 0 <= i < |Combinations(cards, 5)| && HandValue(cards) == ScoreFive(Combinations(cards, 5)[i])
    ensures forall i :: 0 <= i < |Combinations(cards, 5)| ==> !ScoreLess(HandValue(cards), ScoreFive(Combinations(cards, 5)[i]))
  {
    var cs := Combinations(cards, 5);
    assert cards == cards[..5] + cards[5..];
    CombinationsComplete(cards, 5, multiset(cards[..5]));
    var i0 :| 0 <= i0 < |cs| && multiset(cs[i0]) == multiset(cards[..5]);
    var r := HandValue(cards);
    assert !ScoreLess(r, ScoreFive(cs[i0]));
    assert ScoreFive(cs[i0]).category >= 1;
  }

  /** No choice of five of the cards, in any order, beats the value. */
  lemma HandValueMax(cards: seq<Card>, hand: seq<Card>)
    requires |hand| == 5 && multiset(hand) <= multiset(cards)
    ensures !ScoreLess(HandValue(cards), ScoreFive(hand))
  {
    assert multiset(cards) == multiset(hand) + (multiset(cards) - multiset(hand));
    assert |cards| == |multiset(cards)| >= |multiset(hand)| == 5;
    HandValueBest(cards);
    CombinationsComplete(cards, 5, multiset(hand));
    var cs := Combinations(cards, 5);
    var i :| 0 <= i < |cs| && multiset(cs[i]) == multiset(hand);
    ScoreFivePermutation(cs[i], hand);
  }

  /** The value is the score of five of the cards. */
  lemma HandValueReached(cards: seq<Card>)
    requires |cards| >= 5
    ensures exists hand :: |hand| == 5 && multiset(hand) <= multiset(cards) && HandValue(cards) == ScoreFive(hand)
  {
    HandValueBest(cards);
    var cs := Combinations(cards, 5);
    var i :| 0 <= i < |cs| && HandValue(cards) == ScoreFive(cs[i]);
    CombinationsSub(cards, 5, cs[i]);
  }

  /** `evaluate` does not depend on the order of the cards. */
  lemma HandValuePermutation(a: seq<Card>, b: seq<Card>)
    requires multiset(a) == multiset(b)
    ensures HandValue(a) == HandValue(b)
  {
    assert |a| == |multiset(a)| == |multiset(b)| == |b|;
    if |a| >= 5 {
      HandValueReached(a);
      HandValueReached(b);
      var ha :| |ha| == 5 && multiset(ha) <= multiset(a) && HandValue(a) == ScoreFive(ha);
      var hb :| |hb| == 5 && multiset(hb) <= multiset(b) && HandValue(b) == ScoreFive(hb);
      HandValueMax(a, hb);
      HandValueMax(b, ha);
      ScoreLessTotal(HandValue(a), HandValue(b));
    }
  }
}
