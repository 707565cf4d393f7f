/**
 * `GenBump`: the four stock probability policies a generator option can carry.
 * The source hands each out as a closure over the option; here a policy is a
 * value of `Bump` and `Apply` is what calling its closure does. Every policy
 * changes probabilities only through the guarded `probability` setter, and the
 * counter-double-drop policy also lowers `defaultProbability` directly.
 */
module GenBump {
  import opened OptionStates

  datatype Bump =
    | Counter
    | TempDrop(dropValue: int)
    | TempDoubleDrop(dropValue: int)
    | CounterDoubleDrop(dropValue: int)

  /** `counter()`: a selected option loses one point of probability; at 0 the setter refuses -1. */
  function CounterBump(s: OptionState): (t: OptionState)
    ensures SameIndices(s, t) && t.defaultProbability == s.defaultProbability
    ensures HasBeenSelected(s) && s.probability >= 1 ==>
              t.probability == s.probability - 1 && t.lastProbability == s.probability
    ensures !(HasBeenSelected(s) && s.probability >= 1) ==> t == s
  {
    if HasBeenSelected(s) then SetProbability(s, s.probability - 1) else s
  }

  /** The value a probability takes when the setter is given `v`. */
  function Assigned(s: OptionState, v: int): int
  {
    if v >= 0 then v else s.probability
  }

  /** `tempDrop(dropValue:)`: the round the option is picked it drops to `dropValue`; any other round it is back at its default. */
  function TempDropBump(s: OptionState, dropValue: int): (t: OptionState)
    ensures SameIndices(s, t) && t.defaultProbability == s.defaultProbability
    ensures HasBeenSelected(s) ==> t.probability == Assigned(s, dropValue)
    ensures !HasBeenSelected(s) ==> t.probability == Assigned(s, s.defaultProbability)
  {
    if HasBeenSelected(s) then SetProbability(s, dropValue) else SetProbability(s, s.defaultProbability)
  }

  /** `tempDoubleDrop(dropValue:)`: the drop happens only when the option is picked in two rounds in a row. */
  function TempDoubleDropBump(s: OptionState, dropValue: int): (t: OptionState)
    ensures SameIndices(s, t) && t.defaultProbability == s.defaultProbability
    ensures HasBeenSelected(s) && WasConsecutivelySelected(s) ==> t.probability == Assigned(s, dropValue)
    ensures !(HasBeenSelected(s) && WasConsecutivelySelected(s)) ==>
              t.probability == Assigned(s, s.defaultProbability)
  {
    if HasBeenSelected(s) then
      if WasConsecutivelySelected(s) then SetProbability(s, dropValue)
      else SetProbability(s, s.defaultProbability)
    else
      SetProbability(s, s.defaultProbability)
  }

  /**
   * `counterDoubleDrop(dropValue:)`: every pick lowers the default by one, with
   * no floor; the probability follows the lowered default, or drops to
   * `dropValue` on a second pick in a row.
   */
  function CounterDoubleDropBump(s: OptionState, dropValue: int): (t: OptionState)
    ensures SameIndices(s, t)
    ensures HasBeenSelected(s) ==> t.defaultProbability == s.defaultProbability - 1
    ensures !HasBeenSelected(s) ==> t.defaultProbability == s.defaultProbability
    ensures HasBeenSelected(s) && WasConsecutivelySelected(s) ==> t.probability == Assigned(s, dropValue)
    ensures HasBeenSelected(s) && !WasConsecutivelySelected(s) ==>
              t.probability == Assigned(s, s.defaultProbability - 1)
    ensures !HasBeenSelected(s) ==> t.probability == Assigned(s, s.defaultProbability)
  {
    if HasBeenSelected(s) then
      var lowered := s.(defaultProbability := s.defaultProbability - 1);
      if WasConsecutivelySelected(s) then SetProbability(lowered, dropValue)
      else SetProbability(lowered, lowered.defaultProbability)
    else
      SetProbability(s, s.defaultProbability)
  }

  /**
   * Calling a policy's closure on an option. No policy touches the selection
   * history, and none can make a non-negative probability negative.
   */
  function Apply(s: OptionState, b: Bump): (t: OptionState)
    ensures SameIndices(s, t)
    ensures s.probability >= 0 ==> t.probability >= 0
    ensures !b.CounterDoubleDrop? ==> t.defaultProbability == s.defaultProbability
  {
    match b
    case Counter => CounterBump(s)
    case TempDrop(v) => TempDropBump(s, v)
    case TempDoubleDrop(v) => TempDoubleDropBump(s, v)
    case CounterDoubleDrop(v) => CounterDoubleDropBump(s, v)
  }
}
