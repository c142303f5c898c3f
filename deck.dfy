/**
  The deck: a list of cards that `reset` refills with the 52 cards and
  shuffles, and that `deal` pops from the tail.
 */
module Decks {
  import opened Wrappers
  import opened Lists
  import opened Cards

  /**
    What `random.shuffle` takes from its random source for a list of n items:
    it visits positions n - 1 down to 1 and, at position i, draws an index
    j <= i to swap with. `draws[i]` is the index drawn at position i;
    `draws[0]` is never used.
   */
  predicate ValidDraws(draws: seq<nat>, n: nat)
  {
    |draws| == n && forall i :: 0 <= i < n ==> draws[i] <= i
  }

  function Swap(s: seq<Card>, i: nat, j: nat): (r: seq<Card>)
    requires i < |s| && j < |s|
    ensures |r| == |s| && multiset(r) == multiset(s)
  {
    s[i := s[j]][j := s[i]]
  }

  /**
    The list after the swaps at positions |d| - 1 down to 1, where `d` is
    the first |d| draws.
   */
  function ShuffleFrom(s: seq<Card>, d: seq<nat>): (r: seq<Card>)
    requires |d| <= |s| && forall i :: 0 <= i < |d| ==> d[i] <= i
    ensures |r| == |s| && multiset(r) == multiset(s)
    decreases |d|
  {
    if |d| <= 1 then s else ShuffleFrom(Swap(s, |d| - 1, d[|d| - 1]), d[..|d| - 1])
  }

  /** `random.shuffle(s)` with the given draws: a permutation of `s`. */
  function Shuffled(s: seq<Card>, draws: seq<nat>): (r: seq<Card>)
    requires ValidDraws(draws, |s|)
  {
    ShuffleFrom(s, draws)
  }

  /** The cards `deal(count)` returns: popped from the tail, last card first. */
  function Dealt(cards: seq<Card>, count: nat): seq<Card>
    requires count <= |cards|
  {
    Reversed(cards[|cards| - count..])
  }

  /** The cards `deal(count)` leaves in the deck. */
  function Remaining(cards: seq<Card>, count: nat): seq<Card>
    requires count <= |cards|
  {
    cards[..|cards| - count]
  }

  /**
    `deal(count)` hands out exactly `count` cards, the last ones from the end
    backwards, and together with what stays they are the cards of the deck.
   */
  lemma DealSplits(cards: seq<Card>, count: nat)
    requires count <= |cards|
    ensures |Dealt(cards, count)| == count && |Remaining(cards, count)| == |cards| - count
    ensures forall i :: 0 <= i < count ==> Dealt(cards, count)[i] == cards[|cards| - 1 - i]
    ensures multiset(Dealt(cards, count)) + multiset(Remaining(cards, count)) == multiset(cards)
  {
    var tail := cards[|cards| - count..];
    forall i | 0 <= i < count
      ensures Dealt(cards, count)[i] == cards[|cards| - 1 - i]
    {
      ReversedAt(tail, i);
    }
    ReversedMultiset(tail);
    assert cards == Remaining(cards, count) + tail;
  }

  /** A fresh deck, shuffled or not, holds every card once. */
  lemma ShuffledFullDeck(draws: seq<nat>, c: Card)
    requires ValidDraws(draws, 52)
    ensures |Shuffled(FullDeck(), draws)| == 52
    ensures multiset(Shuffled(FullDeck(), draws))[c] == 1
  {
    FullDeckExactlyOnce(c);
  }

  lemma DistinctOfCountsAtMostOne(s: seq<Card>)
    requires forall c :: multiset(s)[c] <= 1
    ensures Distinct(s)
  {
    forall i, j | 0 <= i < j < |s|
      ensures s[i] != s[j]
    {
      if s[i] == s[j] {
        CountTwice(s, i, j);
      }
    }
  }

  /**
    Dealing from a deck that holds each of the 52 cards once gives `count`
    different cards, none of which is still in the deck.
   */
  lemma DealFromFullDeck(cards: seq<Card>, count: nat)
    requires multiset(cards) == multiset(FullDeck()) && count <= |cards|
    ensures |Dealt(cards, count)| == count
    ensures Distinct(Dealt(cards, count))
    ensures forall c :: c in Dealt(cards, count) ==> c !in Remaining(cards, count)
  {
    DealSplits(cards, count);
    var d, r := Dealt(cards, count), Remaining(cards, count);
    forall c
      ensures multiset(d)[c] + multiset(r)[c] == 1
    {
      FullDeckExactlyOnce(c);
    }
    DistinctOfCountsAtMostOne(d);
    forall c | c in d
      ensures c !in r
    {
      assert multiset(d)[c] >= 1;
    }
  }

  class Deck {
    var cards: seq<Card>

    /** `Deck()`: an empty list, then `reset`. */
    constructor (draws: seq<nat>)
      requires ValidDraws(draws, 52)
      ensures cards == Shuffled(FullDeck(), draws)
    {
      cards := [];
      new;
      Reset(draws);
    }

    method Reset(draws: seq<nat>)
      requires ValidDraws(draws, 52)
      modifies this
      ensures cards == Shuffled(FullDeck(), draws)
    {
      cards := FullDeck();
      Shuffle(draws);
    }

    /** `random.shuffle(self.cards)`, the Fisher-Yates swaps in place. */
    method Shuffle(draws: seq<nat>)
      requires ValidDraws(draws, |cards|)
      modifies this
      ensures cards == Shuffled(old(cards), draws)
      ensures multiset(cards) == multiset(old(cards))
    {
      var k := |cards|;
      assert draws[..k] == draws;
      while k > 1
        invariant 0 <= k <= |cards| == |old(cards)|
        invariant ValidDraws(draws, |cards|)
        invariant ShuffleFrom(cards, draws[..k]) == Shuffled(old(cards), draws)
      {
        var i := k - 1;
        assert draws[..k][..i] == draws[..i];
        var j := draws[i];
        var ci, cj := cards[i], cards[j];
        cards := cards[i := cj][j := ci];
        k := i;
      }
    }

    /**
      `deal(count)`: fails, changing nothing, when fewer than `count` cards
      are left; otherwise pops `count` cards off the tail.
     */
    method Deal(count: nat) returns (dealt: Option<seq<Card>>)
      modifies this
      ensures |old(cards)| < count ==> dealt == None && cards == old(cards)
      ensures count <= |old(cards)| ==>
        dealt == Some(Dealt(old(cards), count)) && cards == Remaining(old(cards), count)
    {
      if |cards| < count {
        return None;
      }
      ghost var n := |cards|;
      var out: seq<Card> := [];
      for i := 0 to count
        invariant cards == old(cards)[..n - i]
        invariant out == Reversed(old(cards)[n - i..])
      {
        assert old(cards)[n - i - 1..][1..] == old(cards)[n - i..];
        out := out + [cards[|cards| - 1]];
        cards := cards[..|cards| - 1];
      }
      return Some(out);
    }
  }
}
