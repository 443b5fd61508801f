/**
 * Properties of the dice-tree evaluation, stated over the specification
 * `Evaluate` / `Contributions` that the three evaluator methods are proved
 * to compute.
 */
module DiceProperties {
  import opened DiceTypes
  import opened Reduction
  import opened CombinedDiceValue

  // ---------------------------------------------------------------------
  // Percentile detection

  /** When the detector matches, every evaluation returns its reading unchanged. */
  lemma PercentilePrecedence(rules: Rules, d: Dice, values: Values)
    requires IsPercentilePair(d, values)
    ensures Evaluate(rules, d, values) == CheckD100Combination(d, values)
    ensures Evaluate(rules, d, values).Some?
  {
  }

  /** A tens die reading 0, 10, ..., 90 and a units die reading 0..9 give a reading in 1..100. */
  lemma PercentileReadingRange(tens: int, units: int)
    requires tens % 10 == 0 && 0 <= tens <= 90 && 0 <= units <= 9
    ensures 1 <= PercentileReading(tens, units) <= 100
  {
  }

  /** Distinct face pairs give distinct readings, so the reading covers 1..100 one pair each. */
  lemma PercentileReadingInjective(t1: int, u1: int, t2: int, u2: int)
    requires t1 % 10 == 0 && 0 <= t1 <= 90 && 0 <= u1 <= 9
    requires t2 % 10 == 0 && 0 <= t2 <= 90 && 0 <= u2 <= 9
    requires PercentileReading(t1, u1) == PercentileReading(t2, u2)
    ensures t1 == t2 && u1 == u2
  {
  }

  /** Detection is positional: the same two dice in the other order are not a percentile pair. */
  lemma PercentileIsPositional(d: Dice, values: Values)
    requires IsPercentilePair(d, values)
    ensures !IsPercentilePair(Dice([d.dice[1], d.dice[0]], d.combination, d.bonus), values)
  {
  }

  // ---------------------------------------------------------------------
  // Empty groups, unresolved dice and the bonus

  /** A group with no children yields its bonus as set, under every evaluation. */
  lemma EmptyGroup(rules: Rules, d: Dice, values: Values)
    requires |d.dice| == 0
    ensures Evaluate(rules, d, values) == d.bonus
  {
  }

  /** Dice that have not been rolled yet contribute nothing. */
  lemma {:induction false} UnresolvedContributeNothing(rules: Rules, cs: seq<DieOrDice>, values: Values)
    requires forall i :: 0 <= i < |cs| ==> cs[i].DieNode? && cs[i].die.id !in values
    ensures Contributions(rules, cs, values) == []
    decreases cs
  {
    if cs != [] {
      UnresolvedContributeNothing(rules, cs[..|cs| - 1], values);
    }
  }

  /**
   * A group of dice none of which has been rolled yields its bonus exactly as
   * set: no result yet without a bonus, 0 with an explicit bonus of 0.
   */
  lemma AllUnresolvedGiveBonus(rules: Rules, d: Dice, values: Values)
    requires forall i :: 0 <= i < |d.dice| ==> d.dice[i].DieNode? && d.dice[i].die.id !in values
    ensures Evaluate(rules, d, values) == d.bonus
  {
    UnresolvedContributeNothing(rules, d.dice, values);
  }

  /** The children's values are the concatenation of each part's values. */
  lemma {:induction false} ContributionsAppend(rules: Rules, a: seq<DieOrDice>, b: seq<DieOrDice>, values: Values)
    ensures Contributions(rules, a + b, values) == Contributions(rules, a, values) + Contributions(rules, b, values)
    decreases |b|
  {
    if b == [] {
      assert a + b == a;
    } else {
      var b' := b[..|b| - 1];
      assert (a + b)[..|a + b| - 1] == a + b';
      ContributionsAppend(rules, a, b', values);
    }
  }

  /** Inserting a die that has not been rolled anywhere among the children changes nothing. */
  lemma UnresolvedDieIgnored(rules: Rules, a: seq<DieOrDice>, b: seq<DieOrDice>, die: Die, values: Values)
    requires die.id !in values
    ensures Contributions(rules, a + [DieNode(die)] + b, values) == Contributions(rules, a + b, values)
  {
    ContributionsAppend(rules, a + [DieNode(die)], b, values);
    ContributionsAppend(rules, a, [DieNode(die)], values);
    ContributionsAppend(rules, a, b, values);
    assert [DieNode(die)][..0] == [];
  }

  // ---------------------------------------------------------------------
  // Order of the children

  /** Taking one child out removes exactly that child's contribution. */
  lemma ContributionsRemove(rules: Rules, front: seq<DieOrDice>, c: DieOrDice, back: seq<DieOrDice>, values: Values)
    ensures multiset(Contributions(rules, front + [c] + back, values)) ==
      multiset(Contributions(rules, front + back, values)) + multiset(ChildContribution(rules, c, values))
  {
    assert Contributions(rules, [c], values) == ChildContribution(rules, c, values) by {
      assert [c][..0] == [];
    }
    ContributionsAppend(rules, front + [c], back, values);
    ContributionsAppend(rules, front, [c], values);
    ContributionsAppend(rules, front, back, values);
  }

  /** Reordering the children reorders their contributed values and nothing more. */
  lemma {:induction false} ContributionsPermutation(rules: Rules, a: seq<DieOrDice>, b: seq<DieOrDice>, values: Values)
    requires multiset(a) == multiset(b)
    ensures multiset(Contributions(rules, a, values)) == multiset(Contributions(rules, b, values))
    decreases |a|
  {
    if a == [] {
      assert |b| == |multiset(b)| == 0;
    } else {
      var i := PermutationRemove(a, b);
      var front, x, back := b[..i], b[i], b[i + 1..];
      calc {
        multiset(Contributions(rules, a, values));
      == { assert a == [] + [a[0]] + a[1..]; }
        multiset(Contributions(rules, [] + [a[0]] + a[1..], values));
      == { ContributionsRemove(rules, [], a[0], a[1..], values); assert [] + a[1..] == a[1..]; }
        multiset(Contributions(rules, a[1..], values)) + multiset(ChildContribution(rules, x, values));
      == { ContributionsPermutation(rules, a[1..], front + back, values); }
        multiset(Contributions(rules, front + back, values)) + multiset(ChildContribution(rules, x, values));
      == { ContributionsRemove(rules, front, x, back, values); }
        multiset(Contributions(rules, front + [x] + back, values));
      == { assert b == front + [x] + back; }
        multiset(Contributions(rules, b, values));
      }
    }
  }

  /**
   * Outside the positional percentile rule, the order of a group's children
   * does not change its result under any evaluation.
   */
  lemma ChildOrderIrrelevant(rules: Rules, d: Dice, e: Dice, values: Values)
    requires multiset(d.dice) == multiset(e.dice)
    requires d.combination == e.combination && d.bonus == e.bonus
    requires !IsPercentilePair(d, values) && !IsPercentilePair(e, values)
    ensures Evaluate(rules, d, values) == Evaluate(rules, e, values)
  {
    ContributionsPermutation(rules, d.dice, e.dice, values);
    ReducePermutation(Contributions(rules, d.dice, values), Contributions(rules, e.dice, values), d.combination, d.bonus);
  }

  // ---------------------------------------------------------------------
  // Standard evaluation

  /**
   * On rolled dice the standard evaluation contributes one value per die, in
   * order: 10 for a D10 showing 0, the raw face for every other die and face.
   */
  lemma {:induction false} StandardLeafRule(cs: seq<DieOrDice>, values: Values)
    requires forall i :: 0 <= i < |cs| ==> cs[i].DieNode? && cs[i].die.id in values
    ensures |Contributions(Standard, cs, values)| == |cs|
    ensures forall i :: 0 <= i < |cs| ==>
      Contributions(Standard, cs, values)[i] ==
        if cs[i].die.dieType == D10 && values[cs[i].die.id] == 0 then 10 else values[cs[i].die.id]
    decreases cs
  {
    if cs != [] {
      StandardLeafRule(cs[..|cs| - 1], values);
    }
  }

  // ---------------------------------------------------------------------
  // Forbidden Lands successes

  /** Higher faces never give fewer successes. */
  lemma SuccessTierMonotone(v: int, w: int)
    requires 6 <= v <= w <= 12
    ensures SuccessTier(v).value <= SuccessTier(w).value
  {
  }

  /** Every value a die contributes to the success count lies between 1 and 5. */
  lemma {:induction false} SuccessLeavesBounded(cs: seq<DieOrDice>, values: Values)
    requires forall i :: 0 <= i < |cs| ==> cs[i].DieNode?
    ensures forall i :: 0 <= i < |Contributions(FblSuccess, cs, values)| ==>
      1 <= Contributions(FblSuccess, cs, values)[i] <= 5
    decreases cs
  {
    if cs != [] {
      SuccessLeavesBounded(cs[..|cs| - 1], values);
    }
  }

  /** The positions of the children the success rule counts. */
  function SuccessPositions(cs: seq<DieOrDice>, values: Values): set<nat>
  {
    set i: nat | i < |cs| && IsSuccess(cs[i], values)
  }

  /**
   * On dice, the success rule contributes one value per counted die and
   * nothing for any other: an unrolled die, a die that is not a D10 showing
   * 0, or a face of 1..5 or of 13 and above.
   */
  lemma {:induction false} SuccessLeafRule(cs: seq<DieOrDice>, values: Values)
    requires forall i :: 0 <= i < |cs| ==> cs[i].DieNode?
    ensures |Contributions(FblSuccess, cs, values)| == |SuccessPositions(cs, values)|
    decreases cs
  {
    if cs != [] {
      var cs' := cs[..|cs| - 1];
      SuccessLeafRule(cs', values);
      var n := |cs| - 1;
      if IsSuccess(cs[n], values) {
        assert SuccessPositions(cs, values) == SuccessPositions(cs', values) + {n};
      } else {
        assert SuccessPositions(cs, values) == SuccessPositions(cs', values);
      }
    }
  }

  /** The successes of the counted children, in child order. */
  function SuccessValues(cs: seq<DieOrDice>, values: Values): seq<int>
  {
    if cs == [] then []
    else
      var last := cs[|cs| - 1];
      SuccessValues(cs[..|cs| - 1], values) + (if IsSuccess(last, values) then [SuccessesOf(last, values)] else [])
  }

  /** On dice, the success values are exactly the successes of the counted dice, in order. */
  lemma {:induction false} SuccessLeafContents(cs: seq<DieOrDice>, values: Values)
    requires forall i :: 0 <= i < |cs| ==> cs[i].DieNode?
    ensures Contributions(FblSuccess, cs, values) == SuccessValues(cs, values)
    decreases cs
  {
    if cs != [] {
      SuccessLeafContents(cs[..|cs| - 1], values);
    }
  }

  /** When every die counts, the success values are, in order, each die's successes. */
  lemma {:induction false} SuccessLeafValues(cs: seq<DieOrDice>, values: Values)
    requires forall i :: 0 <= i < |cs| ==> IsSuccess(cs[i], values)
    ensures |Contributions(FblSuccess, cs, values)| == |cs|
    ensures forall i :: 0 <= i < |cs| ==> Contributions(FblSuccess, cs, values)[i] == SuccessesOf(cs[i], values)
    decreases cs
  {
    if cs != [] {
      SuccessLeafValues(cs[..|cs| - 1], values);
    }
  }

  /**
   * A summed group of dice without a bonus, that is not a percentile pair,
   * counts between 1 and 5 successes per die when it counts any.
   */
  lemma SuccessLeafOnlyBounds(d: Dice, values: Values)
    requires forall i :: 0 <= i < |d.dice| ==> d.dice[i].DieNode?
    requires d.combination.None? || d.combination == Some(SUM)
    requires d.bonus.None?
    requires !IsPercentilePair(d, values)
    requires Evaluate(FblSuccess, d, values).Some?
    ensures 1 <= Evaluate(FblSuccess, d, values).value <= 5 * |d.dice|
  {
    var vals := Contributions(FblSuccess, d.dice, values);
    SuccessLeavesBounded(d.dice, values);
    SumBounds(vals, 1, 5);
  }

  // ---------------------------------------------------------------------
  // Forbidden Lands fails

  /** The positions of the children the fail rule counts. */
  function FailPositions(cs: seq<DieOrDice>, values: Values): set<nat>
  {
    set i: nat | i < |cs| && IsFail(cs[i], values)
  }

  /** On dice, the fail rule contributes a 1 for each gear or base die showing 1 and nothing else. */
  lemma {:induction false} FailLeafRule(cs: seq<DieOrDice>, values: Values)
    requires forall i :: 0 <= i < |cs| ==> cs[i].DieNode?
    ensures |Contributions(FblFail, cs, values)| == |FailPositions(cs, values)|
    ensures forall i :: 0 <= i < |Contributions(FblFail, cs, values)| ==> Contributions(FblFail, cs, values)[i] == 1
    decreases cs
  {
    if cs != [] {
      var cs' := cs[..|cs| - 1];
      FailLeafRule(cs', values);
      var n := |cs| - 1;
      if IsFail(cs[n], values) {
        assert FailPositions(cs, values) == FailPositions(cs', values) + {n};
      } else {
        assert FailPositions(cs, values) == FailPositions(cs', values);
      }
    }
  }

  /** A list of ones sums to its length. */
  lemma {:induction false} SumOfOnes(s: seq<int>)
    requires forall i :: 0 <= i < |s| ==> s[i] == 1
    ensures Sum(s) == |s|
  {
    if s != [] {
      SumOfOnes(s[..|s| - 1]);
    }
  }

  /**
   * A summed group of dice without a bonus, that is not a percentile pair,
   * counts its gear and base dice showing 1, and has no result when there are none.
   */
  lemma FailLeafOnlyCount(d: Dice, values: Values)
    requires forall i :: 0 <= i < |d.dice| ==> d.dice[i].DieNode?
    requires d.combination.None? || d.combination == Some(SUM)
    requires d.bonus.None?
    requires !IsPercentilePair(d, values)
    ensures var n := |FailPositions(d.dice, values)|;
      Evaluate(FblFail, d, values) == if n == 0 then None else Some(n)
  {
    FailLeafRule(d.dice, values);
    SumOfOnes(Contributions(FblFail, d.dice, values));
  }

  /** The fail rule gives nested groups the standard evaluation, not a fail count. */
  lemma {:induction false} FailNestedContributions(cs: seq<DieOrDice>, values: Values)
    requires forall i :: 0 <= i < |cs| ==> cs[i].DiceNode?
    ensures Contributions(FblFail, cs, values) == Contributions(Standard, cs, values)
    decreases cs
  {
    if cs != [] {
      FailNestedContributions(cs[..|cs| - 1], values);
    }
  }

  /** Over a group made only of nested groups, the fail count equals the standard result. */
  lemma FailOverGroupsIsStandard(d: Dice, values: Values)
    requires forall i :: 0 <= i < |d.dice| ==> d.dice[i].DiceNode?
    ensures Evaluate(FblFail, d, values) == Evaluate(Standard, d, values)
  {
    FailNestedContributions(d.dice, values);
  }
}
