/**
 * Reducing the list of values a group's children contributed to the group's
 * result: empty list or NONE gives the bonus as set, otherwise the maximum,
 * the minimum or the sum, plus the bonus.
 */
module Reduction {
  import opened DiceTypes

  /** The sum of a list, folded from the left. */
  function Sum(s: seq<int>): int
  {
    if s == [] then 0 else Sum(s[..|s| - 1]) + s[|s| - 1]
  }

  /** The largest value of a non-empty list. */
  function MaxOf(s: seq<int>): (m: int)
    requires |s| > 0
    ensures m in s
    ensures forall i :: 0 <= i < |s| ==> s[i] <= m
  {
    if |s| == 1 then s[0]
    else
      var rest := MaxOf(s[..|s| - 1]);
      if s[|s| - 1] > rest then s[|s| - 1] else rest
  }

  /** The smallest value of a non-empty list. */
  function MinOf(s: seq<int>): (m: int)
    requires |s| > 0
    ensures m in s
    ensures forall i :: 0 <= i < |s| ==> m <= s[i]
  {
    if |s| == 1 then s[0]
    else
      var rest := MinOf(s[..|s| - 1]);
      if s[|s| - 1] < rest then s[|s| - 1] else rest
  }

  /** The result of a group, given the values its children contributed. */
  function Reduce(vals: seq<int>, combination: Option<Combination>, bonus: Option<int>): (r: Option<int>)
    ensures bonus.Some? ==> r.Some?
    ensures |vals| == 0 || combination == Some(NONE) ==> r == bonus
    ensures r.None? ==> bonus.None? && (|vals| == 0 || combination == Some(NONE))
    ensures |vals| > 0 && combination == Some(HIGHEST) ==>
      r.Some? && r.value - BonusOrZero(bonus) in vals &&
      forall i :: 0 <= i < |vals| ==> vals[i] <= r.value - BonusOrZero(bonus)
    ensures |vals| > 0 && combination == Some(LOWEST) ==>
      r.Some? && r.value - BonusOrZero(bonus) in vals &&
      forall i :: 0 <= i < |vals| ==> r.value - BonusOrZero(bonus) <= vals[i]
    ensures |vals| > 0 && (combination.None? || combination == Some(SUM)) ==>
      r == Some(Sum(vals) + BonusOrZero(bonus))
  {
    if |vals| == 0 || combination == Some(NONE) then bonus
    else if combination == Some(HIGHEST) then Some(MaxOf(vals) + BonusOrZero(bonus))
    else if combination == Some(LOWEST) then Some(MinOf(vals) + BonusOrZero(bonus))
    else Some(Sum(vals) + BonusOrZero(bonus))
  }

  lemma {:induction false} SumAppend(a: seq<int>, b: seq<int>)
    ensures Sum(a + b) == Sum(a) + Sum(b)
    decreases |b|
  {
    if b == [] {
      assert a + b == a;
    } else {
      var b' := b[..|b| - 1];
      assert (a + b)[..|a + b| - 1] == a + b';
      SumAppend(a, b');
    }
  }

  /** Taking the element at position `i` out of a list takes it out of the list's multiset. */
  lemma MultisetRemove<T>(s: seq<T>, i: nat)
    requires i < |s|
    ensures s == s[..i] + [s[i]] + s[i + 1..]
    ensures multiset(s[..i] + s[i + 1..]) == multiset(s) - multiset([s[i]])
  {
  }

  /** Taking one value out of a list takes exactly that value off its sum. */
  lemma SumRemove(front: seq<int>, y: int, back: seq<int>)
    ensures Sum(front + [y] + back) == Sum(front + back) + y
  {
    assert Sum([y]) == y by { assert [y][..0] == []; }
    SumAppend(front + [y], back);
    SumAppend(front, [y]);
    SumAppend(front, back);
  }

  /**
   * Finds the first element of `a` in its permutation `b`; the rest of `a`
   * is then a permutation of `b` without that element.
   */
  lemma PermutationRemove<T>(a: seq<T>, b: seq<T>) returns (i: nat)
    requires multiset(a) == multiset(b) && |a| > 0
    ensures i < |b| && b[i] == a[0]
    ensures multiset(a[1..]) == multiset(b[..i] + b[i + 1..])
  {
    assert a[0] in multiset(b);
    i :| 0 <= i < |b| && b[i] == a[0];
    MultisetRemove(a, 0);
    MultisetRemove(b, i);
    assert a[..0] + a[1..] == a[1..];
  }

  /** Summing does not depend on the order of the values. */
  lemma {:induction false} SumPermutation(a: seq<int>, b: seq<int>)
    requires multiset(a) == multiset(b)
    ensures Sum(a) == Sum(b)
    decreases |a|
  {
    if a == [] {
      assert |b| == |multiset(b)| == 0;
    } else {
      var i := PermutationRemove(a, b);
      var rest := b[..i] + b[i + 1..];
      calc {
        Sum(a);
      == { assert a == [] + [a[0]] + a[1..] && [] + a[1..] == a[1..]; SumRemove([], a[0], a[1..]); }
        Sum(a[1..]) + a[0];
      == { SumPermutation(a[1..], rest); }
        Sum(rest) + b[i];
      == { assert b == b[..i] + [b[i]] + b[i + 1..]; SumRemove(b[..i], b[i], b[i + 1..]); }
        Sum(b);
      }
    }
  }

  /** The maximum does not depend on the order of the values. */
  lemma MaxPermutation(a: seq<int>, b: seq<int>)
    requires multiset(a) == multiset(b) && |a| > 0 && |b| > 0
    ensures MaxOf(a) == MaxOf(b)
  {
    assert MaxOf(a) in multiset(b) && MaxOf(b) in multiset(a);
  }

  /** The minimum does not depend on the order of the values. */
  lemma MinPermutation(a: seq<int>, b: seq<int>)
    requires multiset(a) == multiset(b) && |a| > 0 && |b| > 0
    ensures MinOf(a) == MinOf(b)
  {
    assert MinOf(a) in multiset(b) && MinOf(b) in multiset(a);
  }

  /** None of the four reductions depends on the order of the contributed values. */
  lemma ReducePermutation(a: seq<int>, b: seq<int>, combination: Option<Combination>, bonus: Option<int>)
    requires multiset(a) == multiset(b)
    ensures Reduce(a, combination, bonus) == Reduce(b, combination, bonus)
  {
    assert |a| == |multiset(a)| == |multiset(b)| == |b|;
    if |a| == 0 || combination == Some(NONE) {
    } else if combination == Some(HIGHEST) {
      MaxPermutation(a, b);
    } else if combination == Some(LOWEST) {
      MinPermutation(a, b);
    } else {
      SumPermutation(a, b);
    }
  }

  /** Bounds on a sum whose values all lie in one interval. */
  lemma {:induction false} SumBounds(s: seq<int>, lo: int, hi: int)
    requires forall i :: 0 <= i < |s| ==> lo <= s[i] <= hi
    ensures lo * |s| <= Sum(s) <= hi * |s|
  {
    if s != [] {
      var front := s[..|s| - 1];
      SumBounds(front, lo, hi);
      assert lo * |s| == lo * |front| + lo;
      assert hi * |s| == hi * |front| + hi;
    }
  }
}
