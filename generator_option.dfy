/**
 * `GeneratorOption`: one weighted candidate of a generator, an object whose
 * probability and selection history the generator updates in place every
 * round. Each method is specified by the `OptionStates` or `GenBump` function
 * it performs on `State()`.
 */
module GeneratorOptions {
  import opened Wrappers
  import opened OptionStates
  import opened GenBump

  /** What `update(newIndex:)` does to an option's state: announce the round, then run its bump, if any. */
  function UpdateState(s: OptionState, newIndex: int, bump: Option<Bump>): (t: OptionState)
    ensures t.generatorIndex == newIndex
    ensures t.selectionIndex == s.selectionIndex && t.lastSelectedIndex == s.lastSelectedIndex
    ensures s.probability >= 0 ==> t.probability >= 0
    ensures bump.None? ==>
              t.probability == s.probability && t.defaultProbability == s.defaultProbability
              && t.lastProbability == s.lastProbability
  {
    var announced := Announce(s, newIndex);
    if bump.Some? then Apply(announced, bump.value) else announced
  }

  class GeneratorOption<T> {
    var defaultProbability: int
    var currentProbability: int
    var lastCurrentProbability: int
    var lastSelectedIndex: int
    var currentSelectedIndex: int
    var generatorIndex: int
    const bump: Option<Bump>
    const item: T

    /** The option's stored state. */
    function State(): OptionState
      reads this
    {
      OptionState(defaultProbability, currentProbability, lastCurrentProbability,
                  lastSelectedIndex, currentSelectedIndex, generatorIndex)
    }

    /** `init(probability:item:)`. */
    constructor (probability: int, item: T)
      ensures State() == Initial(probability)
      ensures bump == None && this.item == item
    {
      defaultProbability := probability;
      currentProbability := probability;
      lastCurrentProbability := 0;
      lastSelectedIndex := -1;
      currentSelectedIndex := -1;
      generatorIndex := -1;
      bump := None;
      this.item := item;
    }

    /** `init(probability:item:bump:)`. */
    constructor WithBump(probability: int, item: T, bump: Bump)
      ensures State() == Initial(probability)
      ensures this.bump == Some(bump) && this.item == item
    {
      defaultProbability := probability;
      currentProbability := probability;
      lastCurrentProbability := 0;
      lastSelectedIndex := -1;
      currentSelectedIndex := -1;
      generatorIndex := -1;
      this.bump := Some(bump);
      this.item := item;
    }

    /** The `probability` setter. */
    method SetProbability(newValue: int)
      modifies this
      ensures State() == OptionStates.SetProbability(old(State()), newValue)
    {
      if newValue >= 0 {
        lastCurrentProbability := currentProbability;
        currentProbability := newValue;
      }
    }

    /** The `selectionIndex` setter. */
    method SetSelectionIndex(newValue: int)
      modifies this
      ensures State() == OptionStates.SetSelectionIndex(old(State()), newValue)
    {
      if newValue >= 0 {
        lastSelectedIndex := currentSelectedIndex;
        currentSelectedIndex := newValue;
      }
    }

    /** `select(newIndex:)`: marks the option as picked in round `newIndex`. */
    method Select(newIndex: int)
      modifies this
      ensures State() == OptionStates.SetSelectionIndex(old(State()), newIndex)
    {
      SetSelectionIndex(newIndex);
    }

    /** `update(newIndex:)`. */
    method Update(newIndex: int)
      modifies this
      ensures State() == UpdateState(old(State()), newIndex, bump)
    {
      generatorIndex := newIndex;
      if bump.Some? {
        match bump.value {
          case Counter => BumpCounter();
          case TempDrop(v) => BumpTempDrop(v);
          case TempDoubleDrop(v) => BumpTempDoubleDrop(v);
          case CounterDoubleDrop(v) => BumpCounterDoubleDrop(v);
        }
      }
    }

    /** The closure `GenBump.counter()` returns, called on this option. */
    method BumpCounter()
      modifies this
      ensures State() == CounterBump(old(State()))
    {
      if generatorIndex == currentSelectedIndex {
        SetProbability(currentProbability - 1);
      }
    }

    /** The closure `GenBump.tempDrop(dropValue:)` returns, called on this option. */
    method BumpTempDrop(dropValue: int)
      modifies this
      ensures State() == TempDropBump(old(State()), dropValue)
    {
      if generatorIndex == currentSelectedIndex {
        SetProbability(dropValue);
      } else {
        SetProbability(defaultProbability);
      }
    }

    /** The closure `GenBump.tempDoubleDrop(dropValue:)` returns, called on this option. */
    method BumpTempDoubleDrop(dropValue: int)
      modifies this
      ensures State() == TempDoubleDropBump(old(State()), dropValue)
    {
      if generatorIndex == currentSelectedIndex {
        if lastSelectedIndex == currentSelectedIndex - 1 {
          SetProbability(dropValue);
        } else {
          SetProbability(defaultProbability);
        }
      } else {
        SetProbability(defaultProbability);
      }
    }

    /** The closure `GenBump.counterDoubleDrop(dropValue:)` returns, called on this option. */
    method BumpCounterDoubleDrop(dropValue: int)
      modifies this
      ensures State() == CounterDoubleDropBump(old(State()), dropValue)
    {
      if generatorIndex == currentSelectedIndex {
        if lastSelectedIndex == currentSelectedIndex - 1 {
          defaultProbability := defaultProbability - 1;
          SetProbability(dropValue);
        } else {
          defaultProbability := defaultProbability - 1;
          SetProbability(defaultProbability);
        }
      } else {
        SetProbability(defaultProbability);
      }
    }

    /** `reset()`. */
    method Reset()
      modifies this
      ensures State() == OptionStates.Reset(old(State()))
    {
      currentProbability := currentProbability;
      lastCurrentProbability := 0;
      lastSelectedIndex := -1;
      currentSelectedIndex := -1;
      generatorIndex := -1;
    }
  }

  // ----- an option over several rounds -----

  /** The option's state after `k` rounds, numbered from `first`, in every one of which the generator picks it. */
  function PickedRounds(s: OptionState, b: Bump, first: int, k: nat): OptionState
    decreases k
  {
    if k == 0 then s
    else PickedRounds(UpdateState(SetSelectionIndex(s, first), first, Some(b)), b, first + 1, k - 1)
  }

  /** The option's state after `k` rounds, numbered from `first`, in none of which the generator picks it. */
  function PassedRounds(s: OptionState, b: Bump, first: int, k: nat): OptionState
    decreases k
  {
    if k == 0 then s else PassedRounds(UpdateState(s, first, Some(b)), b, first + 1, k - 1)
  }

  /** Under `counter()`, `k` picks in a row lower a probability `p` to `max(p - k, 0)`, leaving the default alone. */
  lemma {:induction false} CounterDecays(s: OptionState, first: int, k: nat)
    requires first >= 0 && s.probability >= 0
    ensures PickedRounds(s, Counter, first, k).probability == if s.probability >= k then s.probability - k else 0
    ensures PickedRounds(s, Counter, first, k).defaultProbability == s.defaultProbability
    decreases k
  {
    if k > 0 {
      CounterDecays(UpdateState(SetSelectionIndex(s, first), first, Some(Counter)), first + 1, k - 1);
    }
  }

  /** Under `counterDoubleDrop`, every pick lowers the default by exactly one, below zero if need be. */
  lemma {:induction false} CounterDoubleDropLowersDefault(s: OptionState, dropValue: int, first: int, k: nat)
    requires first >= 0
    ensures PickedRounds(s, CounterDoubleDrop(dropValue), first, k).defaultProbability == s.defaultProbability - k
    decreases k
  {
    if k > 0 {
      CounterDoubleDropLowersDefault(
        UpdateState(SetSelectionIndex(s, first), first, Some(CounterDoubleDrop(dropValue))), dropValue, first + 1, k - 1);
    }
  }

  /** Under either double-drop policy, two or more picks in a row leave the probability at `dropValue`. */
  lemma {:induction false} RepeatedPicksDrop(s: OptionState, b: Bump, first: int, k: nat)
    requires b.TempDoubleDrop? || b.CounterDoubleDrop?
    requires first >= 0 && k >= 2 && b.dropValue >= 0
    ensures PickedRounds(s, b, first, k).probability == b.dropValue
    decreases k
  {
    var s1 := UpdateState(SetSelectionIndex(s, first), first, Some(b));
    if k == 2 {
      var s2 := UpdateState(SetSelectionIndex(s1, first + 1), first + 1, Some(b));
      assert PickedRounds(s1, b, first + 1, 1) == PickedRounds(s2, b, first + 2, 0);
    } else {
      RepeatedPicksDrop(s1, b, first + 1, k - 1);
    }
  }

  /** Under either double-drop policy, a single pick after a gap does not drop the probability. */
  lemma IsolatedPickKeepsDefault(s: OptionState, b: Bump, first: int)
    requires b.TempDoubleDrop? || b.CounterDoubleDrop?
    requires first >= 0 && s.selectionIndex != first - 1
    requires s.defaultProbability >= 1
    ensures PickedRounds(s, b, first, 1).probability ==
              if b.CounterDoubleDrop? then s.defaultProbability - 1 else s.defaultProbability
  {
    assert PickedRounds(s, b, first, 1) == UpdateState(SetSelectionIndex(s, first), first, Some(b));
  }

  /** Under the three drop policies, every round the option is not picked puts it back at its non-negative default. */
  lemma {:induction false} PassedRoundsRestoreDefault(s: OptionState, b: Bump, first: int, k: nat)
    requires !b.Counter? && k >= 1
    requires s.selectionIndex < first && s.defaultProbability >= 0
    ensures PassedRounds(s, b, first, k).probability == s.defaultProbability
    ensures PassedRounds(s, b, first, k).defaultProbability == s.defaultProbability
    decreases k
  {
    var s1 := UpdateState(s, first, Some(b));
    if k == 1 {
      assert PassedRounds(s1, b, first + 1, 0) == s1;
    } else {
      PassedRoundsRestoreDefault(s1, b, first + 1, k - 1);
    }
  }

  /** Under `counter()`, rounds in which the option is not picked leave its probability alone. */
  lemma {:induction false} PassedRoundsKeepCounter(s: OptionState, first: int, k: nat)
    requires s.selectionIndex < first
    ensures PassedRounds(s, Counter, first, k).probability == s.probability
    decreases k
  {
    if k > 0 {
      PassedRoundsKeepCounter(UpdateState(s, first, Some(Counter)), first + 1, k - 1);
    }
  }
}
