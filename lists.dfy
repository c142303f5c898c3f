/**
  Sequence helpers that stand for Python's list built-ins used by the engine:
  popping from the tail (a reversed suffix), `sorted(..., reverse=True)`,
  the key order of a `Counter`, and list comprehensions that filter.
 */
module Lists {

  /** The elements of `s` from last to first. */
  function Reversed<T>(s: seq<T>): (r: seq<T>)
    ensures |r| == |s|
  {
    if s == [] then [] else Reversed(s[1..]) + [s[0]]
  }

  lemma {:induction false} ReversedAt<T>(s: seq<T>, k: nat)
    requires k < |s|
    ensures Reversed(s)[k] == s[|s| - 1 - k]
  {
    if k < |s| - 1 {
      ReversedAt(s[1..], k);
    }
  }

  lemma {:induction false} ReversedMultiset<T>(s: seq<T>)
    ensures multiset(Reversed(s)) == multiset(s)
  {
    if s != [] {
      ReversedMultiset(s[1..]);
      assert s == [s[0]] + s[1..];
    }
  }

  /** No value occurs twice. */
  predicate Distinct<T(==)>(s: seq<T>)
  {
    forall i, j :: 0 <= i < j < |s| ==> s[i] != s[j]
  }

  /** Non-increasing, as `sorted(..., reverse=True)` leaves a list. */
  predicate Desc(s: seq<int>)
  {
    forall i, j :: 0 <= i < j < |s| ==> s[i] >= s[j]
  }

  /** Strictly decreasing. */
  predicate StrictDesc(s: seq<int>)
  {
    forall i, j :: 0 <= i < j < |s| ==> s[i] > s[j]
  }

  lemma DescCons(x: int, s: seq<int>)
    requires Desc(s) && forall y :: y in s ==> y <= x
    ensures Desc([x] + s)
  {
    var t := [x] + s;
    forall i, j | 0 <= i < j < |t|
      ensures t[i] >= t[j]
    {
      if i == 0 {
        assert t[j] == s[j - 1] && s[j - 1] in s;
      } else {
        assert t[i] == s[i - 1] && t[j] == s[j - 1];
      }
    }
  }

  lemma StrictCons(x: int, s: seq<int>)
    requires StrictDesc(s) && forall y :: y in s ==> y < x
    ensures StrictDesc([x] + s)
  {
    var t := [x] + s;
    forall i, j | 0 <= i < j < |t|
      ensures t[i] > t[j]
    {
      if i == 0 {
        assert t[j] == s[j - 1] && s[j - 1] in s;
      } else {
        assert t[i] == s[i - 1] && t[j] == s[j - 1];
      }
    }
  }

  lemma StrictSnoc(s: seq<int>, x: int)
    requires StrictDesc(s) && forall y :: y in s ==> y > x
    ensures StrictDesc(s + [x])
  {
    var t := s + [x];
    forall i, j | 0 <= i < j < |t|
      ensures t[i] > t[j]
    {
      assert t[i] == s[i] && s[i] in s;
      if j < |s| {
        assert t[j] == s[j];
      }
    }
  }

  function Insert(x: int, s: seq<int>): (r: seq<int>)
    requires Desc(s)
    ensures Desc(r) && multiset(r) == multiset(s) + multiset{x} && |r| == |s| + 1
  {
    if s == [] then [x]
    else if x >= s[0] then [x] + s
    else
      assert s == [s[0]] + s[1..];
      var rest := Insert(x, s[1..]);
      assert forall y :: y in rest ==> y <= s[0] by {
        forall y | y in rest
          ensures y <= s[0]
        {
          assert y in multiset(rest);
        }
      }
      DescCons(s[0], rest);
      [s[0]] + rest
  }

  /** Python's `sorted(s, reverse=True)` on a list of ints. */
  function SortDesc(s: seq<int>): (r: seq<int>)
    ensures Desc(r) && multiset(r) == multiset(s) && |r| == |s|
  {
    if s == [] then []
    else
      assert s == [s[0]] + s[1..];
      Insert(s[0], SortDesc(s[1..]))
  }

  lemma DescMax(s: seq<int>, x: int)
    requires Desc(s) && x in multiset(s)
    ensures s[0] >= x
  {
  }

  /** A non-increasing arrangement of a multiset is unique. */
  lemma {:induction false} DescUnique(a: seq<int>, b: seq<int>)
    requires Desc(a) && Desc(b) && multiset(a) == multiset(b)
    ensures a == b
    decreases |a|
  {
    assert |a| == |multiset(a)| == |b|;
    if a != [] {
      assert a[0] in multiset(b) && b[0] in multiset(a);
      DescMax(a, b[0]);
      DescMax(b, a[0]);
      assert a[0] == b[0];
      assert a == [a[0]] + a[1..] && b == [b[0]] + b[1..];
      assert multiset(a) == multiset{a[0]} + multiset(a[1..]);
      assert multiset(b) == multiset{b[0]} + multiset(b[1..]);
      assert multiset(a[1..]) == multiset(a) - multiset{a[0]};
      assert multiset(b[1..]) == multiset(b) - multiset{b[0]};
      DescUnique(a[1..], b[1..]);
    }
  }

  lemma SortDescOfDesc(s: seq<int>)
    requires Desc(s)
    ensures SortDesc(s) == s
  {
    DescUnique(SortDesc(s), s);
  }

  /** A value seen at two positions is counted at least twice. */
  lemma CountTwice<T>(s: seq<T>, i: nat, j: nat)
    requires i < j < |s| && s[i] == s[j]
    ensures multiset(s)[s[i]] >= 2
  {
    assert s == s[..j] + s[j..];
    assert s[i] in s[..j] && s[j] in s[j..];
  }

  lemma StrictOfCountOne(s: seq<int>)
    requires Desc(s) && forall x :: x in s ==> multiset(s)[x] == 1
    ensures StrictDesc(s)
  {
    forall i, j | 0 <= i < j < |s|
      ensures s[i] > s[j]
    {
      if s[i] == s[j] {
        CountTwice(s, i, j);
      }
    }
  }

  lemma StrictIsDistinct(s: seq<int>)
    requires StrictDesc(s)
    ensures Distinct(s)
  {
  }

  /** The values of `s` as a set, Python's `set(s)`. */
  function ToSet<T>(s: seq<T>): set<T>
  {
    set x | x in s
  }

  lemma {:induction false} ToSetSize<T>(s: seq<T>)
    ensures |ToSet(s)| <= |s|
  {
    if s != [] {
      ToSetSize(s[1..]);
      assert ToSet(s) == {s[0]} + ToSet(s[1..]);
    }
  }

  /** A sequence with as many distinct values as positions repeats nothing. */
  lemma DistinctOfSetSize<T>(s: seq<T>)
    requires |ToSet(s)| == |s|
    ensures Distinct(s)
  {
    forall i, j | 0 <= i < j < |s|
      ensures s[i] != s[j]
    {
      if s[i] == s[j] {
        var t := s[..j] + s[j + 1..];
        assert s == s[..j] + [s[j]] + s[j + 1..];
        assert ToSet(s) == ToSet(t) by {
          assert s[j] in t by { assert t[i] == s[i]; }
        }
        ToSetSize(t);
      }
    }
  }

  lemma {:induction false} DistinctCountOne<T>(s: seq<T>, x: T)
    requires Distinct(s) && x in s
    ensures multiset(s)[x] == 1
  {
    assert s == [s[0]] + s[1..];
    if s[0] == x {
      assert x !in s[1..];
    } else {
      DistinctCountOne(s[1..], x);
    }
  }

  /** Two repetition-free lists with the same values hold them equally often. */
  lemma DistinctSameSet<T>(a: seq<T>, b: seq<T>)
    requires Distinct(a) && Distinct(b) && ToSet(a) == ToSet(b)
    ensures multiset(a) == multiset(b)
  {
    forall x
      ensures multiset(a)[x] == multiset(b)[x]
    {
      if x in a {
        assert x in ToSet(b);
        DistinctCountOne(a, x);
        DistinctCountOne(b, x);
      } else {
        assert x !in ToSet(b);
      }
    }
  }

  /**
    The keys of `Counter(s)` in the order Python keeps them: the order in
    which each value first occurs.
   */
  function Dedup(s: seq<int>): (r: seq<int>)
    ensures forall x :: x in r <==> x in s
    ensures Distinct(r)
  {
    if s == [] then []
    else
      var d := Dedup(s[..|s| - 1]);
      assert forall x :: x in s <==> x in s[..|s| - 1] || x == s[|s| - 1];
      if s[|s| - 1] in d then d else d + [s[|s| - 1]]
  }

  /** Over a sorted list the counter keys come out strictly decreasing. */
  lemma {:induction false} DedupOfDesc(s: seq<int>)
    requires Desc(s)
    ensures StrictDesc(Dedup(s))
  {
    if s != [] {
      var p := s[..|s| - 1];
      DedupOfDesc(p);
      assert forall y :: y in Dedup(p) ==> y >= s[|s| - 1] by {
        forall y | y in Dedup(p)
          ensures y >= s[|s| - 1]
        {
          assert y in p;
        }
      }
      if s[|s| - 1] !in Dedup(p) {
        StrictSnoc(Dedup(p), s[|s| - 1]);
      }
    }
  }

  /** `[x for x in keys if Counter(s)[x] == k]`. */
  function WithCount(keys: seq<int>, s: seq<int>, k: nat): (r: seq<int>)
    ensures forall x :: x in r <==> x in keys && multiset(s)[x] == k
  {
    if keys == [] then []
    else (if multiset(s)[keys[0]] == k then [keys[0]] else []) + WithCount(keys[1..], s, k)
  }

  lemma {:induction false} WithCountStrict(keys: seq<int>, s: seq<int>, k: nat)
    requires StrictDesc(keys)
    ensures StrictDesc(WithCount(keys, s, k))
  {
    if keys != [] {
      WithCountStrict(keys[1..], s, k);
      var rest := WithCount(keys[1..], s, k);
      assert forall y :: y in rest ==> y < keys[0] by {
        forall y | y in rest
          ensures y < keys[0]
        {
          assert y in keys[1..];
        }
      }
      if multiset(s)[keys[0]] == k {
        StrictCons(keys[0], rest);
      }
    }
  }

  /** `[x for x in s if x not in g]`. */
  function Without(s: seq<int>, g: seq<int>): (r: seq<int>)
    ensures forall x :: x in r <==> x in s && x !in g
    ensures forall x :: x !in g ==> multiset(r)[x] == multiset(s)[x]
    ensures forall x :: x in g ==> multiset(r)[x] == 0
  {
    if s == [] then []
    else
      assert s == [s[0]] + s[1..];
      (if s[0] in g then [] else [s[0]]) + Without(s[1..], g)
  }

  lemma {:induction false} WithoutDesc(s: seq<int>, g: seq<int>)
    requires Desc(s)
    ensures Desc(Without(s, g))
  {
    if s != [] {
      WithoutDesc(s[1..], g);
      var rest := Without(s[1..], g);
      assert forall y :: y in rest ==> y <= s[0] by {
        forall y | y in rest
          ensures y <= s[0]
        {
          assert y in s[1..];
        }
      }
      if s[0] !in g {
        DescCons(s[0], rest);
      }
    }
  }

  /** How many elements of `s` have a value among `g`. */
  function CountIn(s: seq<int>, g: seq<int>): (n: nat)
    ensures n <= |s|
  {
    if s == [] then 0 else (if s[0] in g then 1 else 0) + CountIn(s[1..], g)
  }

  lemma {:induction false} WithoutLength(s: seq<int>, g: seq<int>)
    ensures |Without(s, g)| == |s| - CountIn(s, g)
  {
    if s != [] {
      WithoutLength(s[1..], g);
    }
  }

  lemma {:induction false} CountInSingle(s: seq<int>, x: int)
    ensures CountIn(s, [x]) == multiset(s)[x]
  {
    if s != [] {
      CountInSingle(s[1..], x);
      assert s == [s[0]] + s[1..];
    }
  }

  lemma {:induction false} CountInPair(s: seq<int>, x: int, y: int)
    requires x != y
    ensures CountIn(s, [x, y]) == multiset(s)[x] + multiset(s)[y]
  {
    if s != [] {
      CountInPair(s[1..], x, y);
      assert s == [s[0]] + s[1..];
    }
  }

  lemma {:induction false} CountInTriple(s: seq<int>, x: int, y: int, z: int)
    requires x != y && y != z && x != z
    ensures CountIn(s, [x, y, z]) == multiset(s)[x] + multiset(s)[y] + multiset(s)[z]
  {
    if s != [] {
      CountInTriple(s[1..], x, y, z);
      assert s == [s[0]] + s[1..];
    }
  }

  /** Leaving out one value drops as many entries as it occurs. */
  lemma WithoutOneLength(s: seq<int>, x: int)
    ensures |Without(s, [x])| == |s| - multiset(s)[x]
  {
    WithoutLength(s, [x]);
    CountInSingle(s, x);
  }

  /** Leaving out two different values drops as many entries as they occur together. */
  lemma WithoutTwoLength(s: seq<int>, x: int, y: int)
    requires x != y
    ensures |Without(s, [x, y])| == |s| - multiset(s)[x] - multiset(s)[y]
  {
    WithoutLength(s, [x, y]);
    CountInPair(s, x, y);
  }

  /** Two different values together occur at most |s| times. */
  lemma CountPairBound(s: seq<int>, x: int, y: int)
    requires x != y
    ensures multiset(s)[x] + multiset(s)[y] <= |s|
  {
    CountInPair(s, x, y);
  }

  lemma CountTripleBound(s: seq<int>, x: int, y: int, z: int)
    requires x != y && y != z && x != z
    ensures multiset(s)[x] + multiset(s)[y] + multiset(s)[z] <= |s|
  {
    CountInTriple(s, x, y, z);
  }
}
