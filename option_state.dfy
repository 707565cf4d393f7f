/**
 * The probability and selection-history state of one generator option: the
 * stored fields of `GeneratorOption` seen as a value, and the way its two
 * guarded setters, `select`, `update` (without the bump) and `reset` change it.
 * The `GeneratorOption` class specifies each of its methods by one of these
 * functions.
 */
module OptionStates {

  /**
   * `defaultProbability`, `currentProbability`, `lastCurrentProbability`,
   * `lastSelectedIndex`, `currentSelectedIndex` and `generatorIndex`, in that order.
   */
  datatype OptionState = OptionState(
    defaultProbability: int,
    probability: int,
    lastProbability: int,
    lastSelectedIndex: int,
    selectionIndex: int,
    generatorIndex: int)

  /** `hasBeenSelected`: the option was picked in the round the generator last announced. */
  predicate HasBeenSelected(s: OptionState)
  {
    s.generatorIndex == s.selectionIndex
  }

  /** `wasConsecutivelySelected`: the two most recent picks were in adjacent rounds. */
  predicate WasConsecutivelySelected(s: OptionState)
  {
    s.lastSelectedIndex == s.selectionIndex - 1
  }

  /** The three selection indices are the same in both states. */
  predicate SameIndices(s: OptionState, t: OptionState)
  {
    t.lastSelectedIndex == s.lastSelectedIndex
    && t.selectionIndex == s.selectionIndex
    && t.generatorIndex == s.generatorIndex
  }

  /** Both initialisers: every index at -1, the probability at its default, no previous probability. */
  function Initial(probability: int): (s: OptionState)
    ensures s.defaultProbability == probability && s.probability == probability
    ensures s.lastProbability == 0
    ensures s.lastSelectedIndex == -1 && s.selectionIndex == -1 && s.generatorIndex == -1
    ensures !WasConsecutivelySelected(s)
  {
    OptionState(probability, probability, 0, -1, -1, -1)
  }

  /**
   * The `probability` setter. A negative value is ignored; otherwise the current
   * value becomes the last one. It can never make the probability negative.
   */
  function SetProbability(s: OptionState, v: int): (t: OptionState)
    ensures v < 0 ==> t == s
    ensures v >= 0 ==> t.probability == v && t.lastProbability == s.probability
    ensures t.defaultProbability == s.defaultProbability && SameIndices(s, t)
    ensures s.probability >= 0 ==> t.probability >= 0
  {
    if v >= 0 then s.(lastProbability := s.probability, probability := v) else s
  }

  /**
   * The `selectionIndex` setter, which `select(newIndex:)` calls. A negative
   * value is ignored; otherwise the current index becomes the last one.
   */
  function SetSelectionIndex(s: OptionState, v: int): (t: OptionState)
    ensures v < 0 ==> t == s
    ensures v >= 0 ==> t.selectionIndex == v && t.lastSelectedIndex == s.selectionIndex
    ensures t.generatorIndex == s.generatorIndex
    ensures t.defaultProbability == s.defaultProbability && t.probability == s.probability
    ensures t.lastProbability == s.lastProbability
    ensures v >= 0 ==> (WasConsecutivelySelected(t) <==> s.selectionIndex == v - 1)
  {
    if v >= 0 then s.(lastSelectedIndex := s.selectionIndex, selectionIndex := v) else s
  }

  /** The first half of `update(newIndex:)`: the option learns the generator's new round. */
  function Announce(s: OptionState, newIndex: int): (t: OptionState)
    ensures t.generatorIndex == newIndex
    ensures HasBeenSelected(t) <==> s.selectionIndex == newIndex
    ensures WasConsecutivelySelected(t) == WasConsecutivelySelected(s)
    ensures t.defaultProbability == s.defaultProbability && t.probability == s.probability
    ensures t.lastProbability == s.lastProbability
  {
    s.(generatorIndex := newIndex)
  }

  /**
   * `reset()`. Its first assignment stores the probability back into itself, so
   * the probability is NOT restored to the default; only the history is cleared.
   */
  function Reset(s: OptionState): (t: OptionState)
    ensures t.probability == s.probability && t.defaultProbability == s.defaultProbability
    ensures t.lastProbability == 0
    ensures t.lastSelectedIndex == -1 && t.selectionIndex == -1 && t.generatorIndex == -1
    ensures !WasConsecutivelySelected(t)
  {
    s.(lastProbability := 0, lastSelectedIndex := -1, selectionIndex := -1, generatorIndex := -1)
  }

  /** Resetting a fresh option changes nothing, and resetting twice is resetting once. */
  lemma ResetIdempotent(s: OptionState, p: int)
    ensures Reset(Initial(p)) == Initial(p)
    ensures Reset(Reset(s)) == Reset(s)
  {
  }

  /** `reset()` leaves a probability that had moved away from its default where it was. */
  lemma ResetKeepsMovedProbability(s: OptionState)
    requires s.probability != s.defaultProbability
    ensures Reset(s).probability != Reset(s).defaultProbability
  {
  }

  /** A fresh or reset option reports `hasBeenSelected`, since both of its indices are -1. */
  lemma FreshOptionReportsSelected(s: OptionState, p: int)
    ensures HasBeenSelected(Initial(p)) && HasBeenSelected(Reset(s))
  {
  }

  /** Once a probability is non-negative, no assignment of either setter makes it negative. */
  lemma SettersKeepProbabilityNonNegative(s: OptionState, v: int, w: int)
    requires s.probability >= 0
    ensures SetProbability(SetSelectionIndex(s, w), v).probability >= 0
    ensures SetSelectionIndex(SetProbability(s, v), w).probability >= 0
  {
  }
}
