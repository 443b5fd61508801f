# Dice-tree evaluator

A Dafny model of the dice-result evaluator in `src/helpers/getCombinedDiceValue.ts`.
A roll is a tree. Inner nodes are dice groups (`Dice`) with an optional combination
policy (SUM, HIGHEST, LOWEST, NONE) and an optional bonus. Leaves are single dice
(`Die`) with an id, a die type and a style tag. A lookup maps each rolled die's id to
its raw face value. The evaluator folds the tree into an optional integer, where "no
result yet" (`None`) is kept apart from a result of zero.

The model has four parts:

- `dice_types.dfy` (module `DiceTypes`): the tree, the value lookup (`map<string, int>`),
  the `Option` result type, and the bonus defaulting to 0 (`bonus || 0`).
- `reduction.dfy` (module `Reduction`): what a group does with the values its children
  contributed. An empty list or NONE gives the bonus exactly as set. Otherwise the
  result is the maximum, the minimum or the sum, plus the bonus. Also proved here:
  none of these depends on the order of the values.
- `combined_dice_value.dfy` (module `CombinedDiceValue`): the D100+D10 percentile
  detector and the three leaf rules (standard, Forbidden Lands successes, Forbidden
  Lands fails). It holds one recursive specification, `Evaluate(rules, d, values)`,
  for all three evaluations. It also holds the three evaluators as methods whose
  loops build `currentValues` as the source does. Each method is proved to compute
  `Evaluate` for its rules. The fail evaluator gives nested groups the standard
  evaluation (`NestedRules(FblFail) == Standard`), as the source does at line 174.
- `properties.dfy` (module `DiceProperties`): lemmas about the specification, covering
  percentile precedence and range, empty and all-unrolled groups, ignored unrolled
  dice, independence from child order, the leaf rules, the success bounds, the fail
  count, and the fail evaluator's use of the standard evaluation for nested groups.

## Model

| member | source | states |
|---|---|---|
| `CombinedDiceValue.CheckD100Combination` | src/helpers/getCombinedDiceValue.ts:10-34 | yields a value exactly when the group has two children, its combination is absent or SUM, both children are dice, the first a D100 and the second a D10, and both are rolled; the value is 100 plus the bonus when both faces are 0, otherwise the two faces plus the bonus (unset bonus counts as 0) |
| `CombinedDiceValue.SuccessTier` | src/helpers/getCombinedDiceValue.ts:109-118 | a face has a success tier exactly when it lies in 6..12, and the tier is between 1 and 5 |
| `CombinedDiceValue.StandardLeaf` | src/helpers/getCombinedDiceValue.ts:54-60 | a die gives a value exactly when it is rolled; a die that is not a D10 gives its raw face; a D10 with a raw face 0..9 gives a value between 1 and 10 (its full rule, 10 for a D10 showing 0, is stated over lists of dice by `StandardLeafRule`) |
| `CombinedDiceValue.SuccessLeaf` | src/helpers/getCombinedDiceValue.ts:105-118 | a die gives a value exactly when the success rule counts it (`IsSuccess`: rolled, and a D10 showing 0 or a face in 6..12); the value is its successes (`SuccessesOf`: 1 for a D10 showing 0, else the face's tier) and lies in 1..5 |
| `CombinedDiceValue.FailLeaf` | src/helpers/getCombinedDiceValue.ts:163-171 | a die gives a value exactly when the fail rule counts it (`IsFail`: rolled, showing 1, styled FBLGEAR or FBLBASE), and that value is 1 |
| `CombinedDiceValue.NestedRules` | src/helpers/getCombinedDiceValue.ts:173-177 | a nested group is never given the fail rule; the standard and success evaluations give nested groups their own rule (lines 63 and 121), the fail evaluation gives them the standard rule (line 174); over whole groups this is `FailNestedContributions` |
| `CombinedDiceValue.Evaluate` | src/helpers/getCombinedDiceValue.ts:46-84 | the whole evaluation of a group, shared with lines 97-142 and 155-195; its own contract covers the bonus and NONE handling of lines 72-77: a group with a bonus never has a null result, and a NONE group's result is its bonus exactly as set |
| `CombinedDiceValue.Contributions` | src/helpers/getCombinedDiceValue.ts:51-68 | the list of child values has at most one entry per child |
| `CombinedDiceValue.ChildContribution` | src/helpers/getCombinedDiceValue.ts:52-67 | a single child contributes at most one value |
| `CombinedDiceValue.GetCombinedDiceValue` | src/helpers/getCombinedDiceValue.ts:42-85 | the standard evaluator's loop and recursion compute the standard evaluation `Evaluate(Standard, d, values)` |
| `CombinedDiceValue.GetSuccessDiceValueFbl` | src/helpers/getCombinedDiceValue.ts:93-143 | the success counter's loop and recursion compute `Evaluate(FblSuccess, d, values)`, recursing into nested groups with the success rule |
| `CombinedDiceValue.GetFailDiceValueFbl` | src/helpers/getCombinedDiceValue.ts:151-196 | the fail counter's loop computes `Evaluate(FblFail, d, values)`, whose nested groups get the standard evaluation |
| `Reduction.Sum` | src/helpers/getCombinedDiceValue.ts:83 | no `ensures` of its own: the left fold of line 83 is characterised by `SumAppend` (sum of a concatenation), `SumPermutation` (order-independence) and `SumBounds` (bounds from element bounds) |
| `Reduction.SumAppend` | src/helpers/getCombinedDiceValue.ts:83 | the sum of two lists joined is the sum of the first plus the sum of the second |
| `Reduction.SumBounds` | src/helpers/getCombinedDiceValue.ts:83 | a list whose values lie in lo..hi sums to between lo and hi times its length |
| `DiceTypes.BonusOrZero` | src/helpers/getCombinedDiceValue.ts:14 | no `ensures` of its own: the bonus with an unset bonus read as 0, as at line 14 (also lines 70, 128 and 181); its use is stated by the contracts of `CheckD100Combination` and `Reduce` |
| `Reduction.MaxOf` | src/helpers/getCombinedDiceValue.ts:79 | the maximum of a non-empty list is one of its values and no value exceeds it |
| `Reduction.MinOf` | src/helpers/getCombinedDiceValue.ts:81 | the minimum of a non-empty list is one of its values and no value is below it |
| `Reduction.Reduce` | src/helpers/getCombinedDiceValue.ts:70-84 | an empty list or NONE yields the bonus exactly as set; the result is null only then and only with no bonus; HIGHEST gives a value of the list that no other exceeds, plus the bonus; LOWEST gives one that no other is below, plus the bonus; SUM or absent gives the sum plus the bonus |
| `Reduction.SumPermutation` | src/helpers/getCombinedDiceValue.ts:83 | the sum of the contributed values does not depend on their order |
| `Reduction.MaxPermutation` | src/helpers/getCombinedDiceValue.ts:79 | the maximum does not depend on the order |
| `Reduction.MinPermutation` | src/helpers/getCombinedDiceValue.ts:81 | the minimum does not depend on the order |
| `Reduction.ReducePermutation` | src/helpers/getCombinedDiceValue.ts:72-84 | the reduction under every policy and bonus does not depend on the order of the contributed values |
| `DiceProperties.PercentilePrecedence` | src/helpers/getCombinedDiceValue.ts:46-49 | when the percentile detector matches, every evaluation returns its reading unchanged (so also at lines 97-100 and 155-158) |
| `DiceProperties.PercentileReadingRange` | src/helpers/getCombinedDiceValue.ts:25-29 | a tens die showing 0, 10, ..., 90 with a units die showing 0..9 reads between 1 and 100 |
| `DiceProperties.PercentileReadingInjective` | src/helpers/getCombinedDiceValue.ts:25-29 | two such face pairs with the same reading are the same pair, so each reading in 1..100 comes from one pair |
| `DiceProperties.PercentileIsPositional` | src/helpers/getCombinedDiceValue.ts:19-21 | a percentile pair with its two children swapped is not detected |
| `DiceProperties.EmptyGroup` | src/helpers/getCombinedDiceValue.ts:72-77 | a group with no children evaluates to its bonus as set (null when unset) under every evaluation |
| `DiceProperties.UnresolvedContributeNothing` | src/helpers/getCombinedDiceValue.ts:54-55 | dice whose id is not in the lookup contribute no value under any evaluation |
| `DiceProperties.AllUnresolvedGiveBonus` | src/helpers/getCombinedDiceValue.ts:72-77 | a group of dice none of which is rolled yields its bonus exactly as set under any evaluation: no result without a bonus, 0 with an explicit bonus of 0 |
| `DiceProperties.UnresolvedDieIgnored` | src/helpers/getCombinedDiceValue.ts:54-55 | inserting an unrolled die anywhere among the children leaves the contributed values unchanged |
| `DiceProperties.ContributionsAppend` | src/helpers/getCombinedDiceValue.ts:52-68 | the values contributed by two runs of children are the first run's values followed by the second's |
| `DiceProperties.ContributionsPermutation` | src/helpers/getCombinedDiceValue.ts:52-68 | permuting the children permutes the contributed values |
| `DiceProperties.ChildOrderIrrelevant` | src/helpers/getCombinedDiceValue.ts:78-84 | outside the positional percentile rule, reordering a group's children does not change its result under any evaluation |
| `DiceProperties.StandardLeafRule` | src/helpers/getCombinedDiceValue.ts:54-61 | rolled dice contribute one value each, in order: 10 for a D10 showing 0, and the raw face for every other case, including 0 on a die that is not a D10 |
| `DiceProperties.SuccessTierMonotone` | src/helpers/getCombinedDiceValue.ts:110-117 | a higher face in 6..12 never gives fewer successes |
| `DiceProperties.SuccessLeafRule` | src/helpers/getCombinedDiceValue.ts:105-119 | dice contribute to the success count exactly one value per rolled D10 showing 0 or rolled die showing 6..12, and nothing for an unrolled die, a non-D10 showing 0, or faces 1..5 and 13 and above |
| `DiceProperties.SuccessLeafContents` | src/helpers/getCombinedDiceValue.ts:105-119 | on dice, the success values are exactly the successes (`SuccessesOf`) of the counted dice (`IsSuccess`), in child order, for any mix of counted and uncounted dice |
| `DiceProperties.SuccessLeafValues` | src/helpers/getCombinedDiceValue.ts:107-117 | when every die counts, the success values are, in order, 1 for a D10 showing 0 and the face's success tier otherwise |
| `DiceProperties.SuccessLeavesBounded` | src/helpers/getCombinedDiceValue.ts:105-119 | every value a die contributes to the success count lies between 1 and 5 |
| `DiceProperties.SuccessLeafOnlyBounds` | src/helpers/getCombinedDiceValue.ts:103-142 | a summed group of dice with no bonus that is not a percentile pair has, when it has a success count, one between 1 and 5 times its number of dice |
| `DiceProperties.FailLeafRule` | src/helpers/getCombinedDiceValue.ts:163-172 | dice contribute to the fail count only 1s, one per rolled FBLGEAR or FBLBASE die showing 1 |
| `DiceProperties.FailLeafOnlyCount` | src/helpers/getCombinedDiceValue.ts:161-195 | a summed group of dice with no bonus that is not a percentile pair counts its rolled gear and base dice showing 1, and has no result when there are none |
| `DiceProperties.FailNestedContributions` | src/helpers/getCombinedDiceValue.ts:173-177 | nested groups contribute to the fail count exactly what they contribute to the standard evaluation |
| `DiceProperties.FailOverGroupsIsStandard` | src/helpers/getCombinedDiceValue.ts:173-177 | the fail count of a group made only of nested groups equals that group's standard result |

## Left out

- The `@owlbear-rodeo/sdk` import (line 1): it is not used by the evaluator.
- The `isDie` / `isDice` guards come from type files that are not part of this model. Children are a tagged datatype instead, so a child that is neither a die nor a group cannot occur.
- The `Dice` and `Die` type definitions are not part of this model either. The evaluator reads only the id, the type (it distinguishes D10 and D100 and nothing else, the rest being `OtherType`), the style, the children, the combination and the bonus.
- JavaScript number semantics: values and bonuses are unbounded integers. There is no floating point, no `NaN`, and no falsy bonus other than unset versus set. So `bonus || 0` is modelled as "unset counts as 0".
- Spread limits of `Math.max(...)` and `Math.min(...)` on very long arrays, and prototype keys of a `Record` lookup, are runtime artefacts and are not modelled.
- Rolling, randomness, rendering and platform integration are not in this file. The value lookup is a parameter.
- The face encoding of a D100 die (0, 10, ..., 90) is an assumption stated as the precondition of `PercentileReadingRange` and `PercentileReadingInjective`. It is not something the evaluator checks.
- In the fail evaluator, nested groups get the standard evaluation (line 174), while the success evaluator recurses into itself (line 121). The model keeps the code as written; `FailOverGroupsIsStandard` states it.
