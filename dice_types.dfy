/**
 * The data a dice-tree evaluation reads: a tree of dice groups whose leaves
 * are individual dice, and a lookup from die id to the face value rolled.
 */
module DiceTypes {

  /** An optional value; `None` is the evaluator's "no result yet", kept apart from `Some(0)`. */
  datatype Option<T> = None | Some(value: T)

  /** The die shapes the evaluator tells apart; every other shape is `OtherType`. */
  datatype DieType = D10 | D100 | OtherType

  /** How a group reduces the values its children contribute. */
  datatype Combination = SUM | HIGHEST | LOWEST | NONE

  /** A single die: the key into the value lookup, its shape and its style tag. */
  datatype Die = Die(id: string, dieType: DieType, style: string)

  /** A group of dice: ordered children, an optional reduction policy and an optional bonus. */
  datatype Dice = Dice(dice: seq<DieOrDice>, combination: Option<Combination>, bonus: Option<int>)

  /** A child of a group is either a die or a nested group. */
  datatype DieOrDice = DieNode(die: Die) | DiceNode(group: Dice)

  /** Rolled face values by die id; a die still rolling has no entry. */
  type Values = map<string, int>

  /** The bonus as it is added after a reduction: an unset bonus adds nothing. */
  function BonusOrZero(bonus: Option<int>): int
  {
    if bonus.Some? then bonus.value else 0
  }

  /** The zero- or one-element list of the values an optional result contributes. */
  function AsSeq(o: Option<int>): (s: seq<int>)
    ensures |s| <= 1
    ensures o.None? <==> s == []
    ensures o.Some? ==> s == [o.value]
  {
    match o
    case None => []
    case Some(v) => [v]
  }
}
