/**
 * The dice-tree evaluator: the percentile detector, the three leaf rules
 * (standard, Forbidden Lands successes, Forbidden Lands fails), a recursive
 * specification of all three evaluations, and the three evaluators as the
 * loops that build a group's list of contributed values.
 */
module CombinedDiceValue {
  import opened DiceTypes
  import opened Reduction

  /** Style tags of the Forbidden Lands gear and base dice. */
  const FBL_GEAR: string := "FBLGEAR"
  const FBL_BASE: string := "FBLBASE"

  /** The shape the percentile detector recognises, stated as one condition. */
  predicate IsPercentilePair(d: Dice, values: Values)
  {
    && |d.dice| == 2
    && (d.combination.None? || d.combination == Some(SUM))
    && d.dice[0].DieNode? && d.dice[1].DieNode?
    && d.dice[0].die.dieType == D100 && d.dice[1].die.dieType == D10
    && d.dice[0].die.id in values && d.dice[1].die.id in values
  }

  /** The reading of a tens die and a units die: both at zero is a hundred. */
  function PercentileReading(tens: int, units: int): int
  {
    if tens == 0 && units == 0 then 100 else tens + units
  }

  /** Recognises a D100 followed by a D10 and yields their reading plus the bonus. */
  function CheckD100Combination(d: Dice, values: Values): (r: Option<int>)
    ensures r.Some? <==> IsPercentilePair(d, values)
    ensures r.Some? ==>
      r.value == PercentileReading(values[d.dice[0].die.id], values[d.dice[1].die.id]) + BonusOrZero(d.bonus)
  {
    var bonus := BonusOrZero(d.bonus);
    if |d.dice| == 2 && (d.combination.None? || d.combination == Some(SUM)) then
      match (d.dice[0], d.dice[1])
      case (DieNode(d1), DieNode(d2)) =>
        if d1.dieType == D100 && d2.dieType == D10 && d1.id in values && d2.id in values then
          var v1 := values[d1.id];
          var v2 := values[d2.id];
          if v1 == 0 && v2 == 0 then Some(100 + bonus) else Some(v1 + v2 + bonus)
        else None
      case _ => None
    else None
  }

  /** Standard leaf rule: a D10 showing 0 reads 10; an unrolled die gives nothing. */
  function StandardLeaf(die: Die, values: Values): (r: Option<int>)
    ensures r.Some? <==> die.id in values
    ensures die.id in values && die.dieType != D10 ==> r == Some(values[die.id])
    ensures die.id in values && die.dieType == D10 && 0 <= values[die.id] <= 9 ==> 1 <= r.value <= 10
  {
    if die.id !in values then None
    else if values[die.id] == 0 && die.dieType == D10 then Some(10)
    else Some(values[die.id])
  }

  /** The Forbidden Lands success tier of a face value. */
  function SuccessTier(v: int): (r: Option<int>)
    ensures r.Some? <==> 6 <= v <= 12
    ensures r.Some? ==> 1 <= r.value <= 5
  {
    if v == 6 || v == 7 then Some(1)
    else if v == 8 || v == 9 then Some(2)
    else if v == 10 || v == 11 then Some(3)
    else if v == 12 then Some(5)
    else None
  }

  /** A child the success rule counts: a rolled D10 showing 0, or a rolled die showing 6..12. */
  predicate IsSuccess(c: DieOrDice, values: Values)
  {
    c.DieNode? && c.die.id in values &&
    ((c.die.dieType == D10 && values[c.die.id] == 0) || 6 <= values[c.die.id] <= 12)
  }

  /** The successes a counted die gives: one for a D10 showing 0, otherwise the tier of its face. */
  function SuccessesOf(c: DieOrDice, values: Values): int
    requires IsSuccess(c, values)
  {
    if c.die.dieType == D10 && values[c.die.id] == 0 then 1 else SuccessTier(values[c.die.id]).value
  }

  /** Success leaf rule: a D10 showing 0 is one success, otherwise the tier of the face. */
  function SuccessLeaf(die: Die, values: Values): (r: Option<int>)
    ensures r.Some? <==> IsSuccess(DieNode(die), values)
    ensures r.Some? ==> r.value == SuccessesOf(DieNode(die), values) && 1 <= r.value <= 5
  {
    if die.id !in values then None
    else if values[die.id] == 0 && die.dieType == D10 then Some(1)
    else if values[die.id] >= 6 then SuccessTier(values[die.id])
    else None
  }

  /** The style tags of the dice whose 1s the fail rule counts. */
  predicate IsFailStyle(style: string)
  {
    style == FBL_GEAR || style == FBL_BASE
  }

  /** A child the fail rule counts: a rolled gear or base die showing 1. */
  predicate IsFail(c: DieOrDice, values: Values)
  {
    c.DieNode? && c.die.id in values && values[c.die.id] == 1 && IsFailStyle(c.die.style)
  }

  /** Fail leaf rule: a gear or base die showing 1 is one fail; nothing else is. */
  function FailLeaf(die: Die, values: Values): (r: Option<int>)
    ensures r.Some? <==> IsFail(DieNode(die), values)
    ensures r.Some? ==> r.value == 1
  {
    if die.id !in values then None
    else if values[die.id] == 0 && die.dieType == D10 then None
    else if values[die.id] == 1 then
      if IsFailStyle(die.style) then Some(1) else None
    else None
  }

  /** The three evaluations. */
  datatype Rules = Standard | FblSuccess | FblFail

  function LeafContribution(rules: Rules, die: Die, values: Values): Option<int>
  {
    match rules
    case Standard => StandardLeaf(die, values)
    case FblSuccess => SuccessLeaf(die, values)
    case FblFail => FailLeaf(die, values)
  }

  /** The evaluation a nested group is given: the fail count evaluates nested groups the standard way. */
  function NestedRules(rules: Rules): (r: Rules)
    ensures r != FblFail
    ensures rules != FblFail ==> r == rules
  {
    if rules == FblFail then Standard else rules
  }

  /** The result of a group under one of the three evaluations. */
  function Evaluate(rules: Rules, d: Dice, values: Values): (r: Option<int>)
    ensures d.bonus.Some? ==> r.Some?
    ensures d.combination == Some(NONE) ==> r == d.bonus
    decreases d
  {
    var d100Value := CheckD100Combination(d, values);
    if d100Value.Some? then d100Value
    else Reduce(Contributions(rules, d.dice, values), d.combination, d.bonus)
  }

  /** The values a list of children contributes, in order; each child contributes at most one. */
  function Contributions(rules: Rules, cs: seq<DieOrDice>, values: Values): (vals: seq<int>)
    ensures |vals| <= |cs|
    decreases cs
  {
    if cs == [] then []
    else Contributions(rules, cs[..|cs| - 1], values) + ChildContribution(rules, cs[|cs| - 1], values)
  }

  /** What one child contributes: its leaf value, or the nested group's result when there is one. */
  function ChildContribution(rules: Rules, c: DieOrDice, values: Values): (vals: seq<int>)
    ensures |vals| <= 1
    decreases c
  {
    match c
    case DieNode(die) => AsSeq(LeafContribution(rules, die, values))
    case DiceNode(group) => AsSeq(Evaluate(NestedRules(rules), group, values))
  }

  /** The standard evaluator: percentile reading, or the reduced list of child values. */
  method GetCombinedDiceValue(d: Dice, values: Values) returns (r: Option<int>)
    ensures r == Evaluate(Standard, d, values)
  {
    var d100Value := CheckD100Combination(d, values);
    if d100Value.Some? {
      return d100Value;
    }
    var currentValues: seq<int> := [];
    var i := 0;
    while i < |d.dice|
      invariant 0 <= i <= |d.dice|
      invariant currentValues == Contributions(Standard, d.dice[..i], values)
    {
      assert d.dice[..i + 1][..i] == d.dice[..i];
      ghost var step := ChildContribution(Standard, d.dice[i], values);
      assert Contributions(Standard, d.dice[..i + 1], values) == currentValues + step;
      match d.dice[i] {
        case DieNode(die) =>
          assert step == AsSeq(LeafContribution(Standard, die, values));
          if die.id in values {
            var value := values[die.id];
            if value == 0 && die.dieType == D10 {
              assert step == [10];
              currentValues := currentValues + [10];
            } else {
              assert step == [value];
              currentValues := currentValues + [value];
            }
          } else {
            assert step == [];
          }
        case DiceNode(group) =>
          var value := GetCombinedDiceValue(group, values);
          assert step == AsSeq(value);
          if value.Some? {
            currentValues := currentValues + [value.value];
          }
      }
      i := i + 1;
    }
    assert d.dice[..i] == d.dice;
    assert currentValues == Contributions(Standard, d.dice, values);
    r := Reduce(currentValues, d.combination, d.bonus);
  }

  /** The Forbidden Lands success counter; nested groups are counted the same way. */
  method GetSuccessDiceValueFbl(d: Dice, values: Values) returns (r: Option<int>)
    ensures r == Evaluate(FblSuccess, d, values)
  {
    var d100Value := CheckD100Combination(d, values);
    if d100Value.Some? {
      return d100Value;
    }
    var currentValues: seq<int> := [];
    var i := 0;
    while i < |d.dice|
      invariant 0 <= i <= |d.dice|
      invariant currentValues == Contributions(FblSuccess, d.dice[..i], values)
    {
      assert d.dice[..i + 1][..i] == d.dice[..i];
      ghost var step := ChildContribution(FblSuccess, d.dice[i], values);
      assert Contributions(FblSuccess, d.dice[..i + 1], values) == currentValues + step;
      match d.dice[i] {
        case DieNode(die) =>
          assert step == AsSeq(LeafContribution(FblSuccess, die, values));
          if die.id in values {
            var value := values[die.id];
            if value == 0 && die.dieType == D10 {
              assert step == [1];
              currentValues := currentValues + [1];
            } else if value >= 6 {
              assert step == AsSeq(SuccessTier(value));
              if value == 6 || value == 7 {
                currentValues := currentValues + [1];
              }
              if value == 8 || value == 9 {
                currentValues := currentValues + [2];
              }
              if value == 10 || value == 11 {
                currentValues := currentValues + [3];
              }
              if value == 12 {
                currentValues := currentValues + [5];
              }
            } else {
              assert step == [];
            }
          } else {
            assert step == [];
          }
        case DiceNode(group) =>
          var value := GetSuccessDiceValueFbl(group, values);
          assert step == AsSeq(value);
          if value.Some? {
            currentValues := currentValues + [value.value];
          }
      }
      i := i + 1;
    }
    assert d.dice[..i] == d.dice;
    assert currentValues == Contributions(FblSuccess, d.dice, values);
    r := Reduce(currentValues, d.combination, d.bonus);
  }

  /** The Forbidden Lands fail counter; nested groups are given the standard evaluator. */
  method GetFailDiceValueFbl(d: Dice, values: Values) returns (r: Option<int>)
    ensures r == Evaluate(FblFail, d, values)
  {
    var d100Value := CheckD100Combination(d, values);
    if d100Value.Some? {
      return d100Value;
    }
    var currentValues: seq<int> := [];
    var i := 0;
    while i < |d.dice|
      invariant 0 <= i <= |d.dice|
      invariant currentValues == Contributions(FblFail, d.dice[..i], values)
    {
      assert d.dice[..i + 1][..i] == d.dice[..i];
      ghost var step := ChildContribution(FblFail, d.dice[i], values);
      assert Contributions(FblFail, d.dice[..i + 1], values) == currentValues + step;
      match d.dice[i] {
        case DieNode(die) =>
          assert step == AsSeq(LeafContribution(FblFail, die, values));
          if die.id in values {
            var value := values[die.id];
            if value == 0 && die.dieType == D10 {
              assert step == [];
            } else if value == 1 {
              if IsFailStyle(die.style) {
                assert step == [1];
                currentValues := currentValues + [1];
              } else {
                assert step == [];
              }
            } else {
              assert step == [];
            }
          } else {
            assert step == [];
          }
        case DiceNode(group) =>
          var value := GetCombinedDiceValue(group, values);
          assert step == AsSeq(value);
          if value.Some? {
            currentValues := currentValues + [value.value];
          }
      }
      i := i + 1;
    }
    assert d.dice[..i] == d.dice;
    assert currentValues == Contributions(FblFail, d.dice, values);
    r := Reduce(currentValues, d.combination, d.bonus);
  }
}
