/**
 * `Generator`: an adaptive weighted selector over a pool of options. Each call
 * of `getResult` builds a probability table from the options whose probability
 * is positive (or, when there are none and `alwaysEnsureSelection` is set, a
 * table of weight 1 for every option), rolls a probability die over it, marks
 * the picked option with the new round number and then lets every option
 * update itself and run its bump.
 *
 * A round is specified by `Step` on a `Snapshot` of the generator, and the
 * methods of the class are proved to perform it on the shared option objects.
 */
module Generators {
  import opened Wrappers
  import opened Dice
  import opened OptionStates
  import opened GenBump
  import opened GeneratorOptions

  // ----- the table a round rolls over -----

  /** No option has a positive probability. */
  predicate Exhausted(states: seq<OptionState>)
  {
    forall i :: 0 <= i < |states| ==> states[i].probability <= 0
  }

  /** The `(index, probability)` rows for the options with positive probability, in pool order. */
  function PositiveOdds(states: seq<OptionState>): (es: seq<Entry>)
    ensures |es| <= |states|
    ensures forall k :: 0 <= k < |es| ==>
              0 <= es[k].value < |states| && es[k].odds == states[es[k].value].probability && es[k].odds > 0
    ensures forall k1, k2 :: 0 <= k1 < k2 < |es| ==> es[k1].value < es[k2].value
    ensures |es| == 0 <==> Exhausted(states)
    decreases |states|
  {
    if |states| == 0 then []
    else
      var n := |states| - 1;
      var es := PositiveOdds(states[..n]);
      assert forall i :: 0 <= i < n ==> states[..n][i] == states[i];
      var row := Entry(n, states[n].probability);
      if states[n].probability > 0 then es + [row] else es
  }

  /** Every option of positive probability has a row. */
  lemma {:induction false} PositiveOddsCovers(states: seq<OptionState>, i: nat) returns (k: nat)
    requires i < |states| && states[i].probability > 0
    ensures k < |PositiveOdds(states)| && PositiveOdds(states)[k].value == i
    decreases |states|
  {
    var n := |states| - 1;
    var es := PositiveOdds(states[..n]);
    if i == n {
      k := |es|;
    } else {
      assert states[..n][i] == states[i];
      k := PositiveOddsCovers(states[..n], i);
    }
  }

  /** Extending the pool by one option extends the table by that option's row, if it is positive. */
  lemma PositiveOddsSnoc(states: seq<OptionState>, i: nat)
    requires i < |states|
    ensures PositiveOdds(states[..i + 1]) ==
              if states[i].probability > 0 then PositiveOdds(states[..i]) + [Entry(i, states[i].probability)]
              else PositiveOdds(states[..i])
  {
    assert states[..i + 1][..i] == states[..i];
  }

  /** The fallback table: weight 1 for every option. */
  function UniformOdds(n: nat): (es: seq<Entry>)
    ensures |es| == n && forall k :: 0 <= k < n ==> es[k] == Entry(k, 1)
  {
    seq(n, k requires 0 <= k < n => Entry(k, 1))
  }


  /** The weights of the fallback table add up to the number of options. */
  lemma {:induction false} UniformTotal(n: nat)
    ensures Total(UniformOdds(n)) == n
  {
    if n > 0 {
      UniformTotal(n - 1);
      assert Weights(UniformOdds(n))[..n - 1] == Weights(UniformOdds(n - 1));
    }
  }

  /**
   * The round's die does not trap: an empty pool traps when it must select
   * anyway (the die indexes an empty table), and the table's `total - 1` must
   * convert to `UInt32` when the die draws.
   */
  predicate Drawable(states: seq<OptionState>, always: bool)
  {
    && (always ==> |states| > 0)
    && (TableDraws(PositiveOdds(states)) ==> Total(PositiveOdds(states)) <= UInt32Max + 1)
    && (always && Exhausted(states) ==> |states| <= UInt32Max + 1)
  }

  /** The table a round rolls over, or `None` when the round returns nil without changing anything. */
  function RoundOdds(states: seq<OptionState>, always: bool): (o: Option<seq<Entry>>)
    ensures o.None? <==> !always && Exhausted(states)
    ensures o.Some? && !Exhausted(states) ==> o.value == PositiveOdds(states)
    ensures o.Some? && Exhausted(states) ==> o.value == UniformOdds(|states|)
    ensures o.Some? && Drawable(states, always) ==> Rollable(Probability(o.value))
    ensures o.Some? ==> forall k :: 0 <= k < |o.value| ==> 0 <= o.value[k].value < |states|
  {
    var es := PositiveOdds(states);
    if |es| > 0 then
      TotalPositive(es);
      Some(es)
    else
      assert Exhausted(states);
      if !always then None
      else
        var u := UniformOdds(|states|);
        UniformTotal(|states|);
        Some(u)
  }

  /** The round is defined, and `r` is a draw its die accepts. */
  predicate CanPick(states: seq<OptionState>, always: bool, r: int)
  {
    var o := RoundOdds(states, always);
    o.Some? && Drawable(states, always) && CanRoll(Probability(o.value), r)
  }

  /** The index of the option a round picks when the die draws `r`. */
  function PickWith(states: seq<OptionState>, always: bool, r: int): (k: nat)
    requires CanPick(states, always, r)
    ensures k < |states|
  {
    var es := RoundOdds(states, always).value;
    es[PickIndex(es, r)].value
  }

  /** The draw a round's die takes from `random32`. */
  function RoundDraw(states: seq<OptionState>, always: bool, random32: int -> int): int
    requires RoundOdds(states, always).Some?
  {
    random32(DrawBound(Probability(RoundOdds(states, always).value)))
  }

  /** The option a round that selects picks, with its die drawing from `random32`. */
  function Picked(states: seq<OptionState>, always: bool, random32: int -> int): (k: nat)
    requires Drawable(states, always) && IsRandom32(random32) && RoundOdds(states, always).Some?
    ensures k < |states|
  {
    var r := RoundDraw(states, always, random32);
    assert CanPick(states, always, r);
    PickWith(states, always, r)
  }

  // ----- the specification of a round -----

  /** What every generator state shows: its options' states, its round counter and its last pick. */
  datatype Snapshot = Snapshot(states: seq<OptionState>, generatorIndex: int, lastSelectedIndex: Option<nat>)

  /** Every option after `update(newIndex:)`. */
  function UpdatedAll(states: seq<OptionState>, newIndex: int, bumps: seq<Option<Bump>>): (ts: seq<OptionState>)
    requires |bumps| == |states|
    ensures |ts| == |states|
  {
    seq(|states|, i requires 0 <= i < |states| => UpdateState(states[i], newIndex, bumps[i]))
  }

  /** The options once `select(newIndex:)` has marked option `k`. */
  function Selecting(states: seq<OptionState>, k: nat, newIndex: int): (ts: seq<OptionState>)
    requires k < |states|
    ensures |ts| == |states|
  {
    states[k := SetSelectionIndex(states[k], newIndex)]
  }

  /** The options after a round that picks option `k` as round `newIndex`. */
  function AfterRound(states: seq<OptionState>, bumps: seq<Option<Bump>>, k: nat, newIndex: int): seq<OptionState>
    requires |bumps| == |states| && k < |states|
  {
    UpdatedAll(Selecting(states, k, newIndex), newIndex, bumps)
  }

  /** One call of `getResult`: the generator's next snapshot and the index it picked, if any. */
  function Step(g: Snapshot, bumps: seq<Option<Bump>>, always: bool, random32: int -> int): (res: (Snapshot, Option<nat>))
    requires |bumps| == |g.states| && Drawable(g.states, always) && IsRandom32(random32)
    ensures |res.0.states| == |g.states|
    ensures res.1.Some? ==> res.1.value < |g.states|
  {
    match RoundOdds(g.states, always)
    case None => (g, None)
    case Some(_) =>
      var k := Picked(g.states, always, random32);
      var gi := g.generatorIndex + 1;
      (Snapshot(AfterRound(g.states, bumps, k, gi), gi, Some(k)), Some(k))
  }

  /**
   * None of the first `count` calls of `getResult` traps: each starts from a
   * snapshot on which its die can roll.
   */
  ghost predicate RoundsDrawable(g: Snapshot, bumps: seq<Option<Bump>>, always: bool, rng: (nat, int) -> int, count: nat)
    decreases count, 0
  {
    && |bumps| == |g.states| && IsRandomStream(rng)
    && (count > 0 ==>
          && RoundsDrawable(g, bumps, always, rng, count - 1)
          && Drawable(Rounds(g, bumps, always, rng, count - 1).0.states, always))
  }

  /**
   * `count` calls of `getResult` in a row: the final snapshot and the pick of
   * every call. The draw of call `i` is `rng(i, max)`.
   */
  function Rounds(g: Snapshot, bumps: seq<Option<Bump>>, always: bool, rng: (nat, int) -> int, count: nat)
    : (res: (Snapshot, seq<Option<nat>>))
    requires RoundsDrawable(g, bumps, always, rng, count)
    ensures |res.0.states| == |g.states| && |res.1| == count
    ensures forall i :: 0 <= i < count && res.1[i].Some? ==> res.1[i].value < |g.states|
    decreases count, 2
  {
    if count == 0 then (g, []) else RoundsLast(g, bumps, always, rng, count)
  }

  function RoundsLast(g: Snapshot, bumps: seq<Option<Bump>>, always: bool, rng: (nat, int) -> int, count: nat)
    : (res: (Snapshot, seq<Option<nat>>))
    requires RoundsDrawable(g, bumps, always, rng, count) && count > 0
    ensures |res.0.states| == |g.states| && |res.1| == count
    ensures forall i :: 0 <= i < count && res.1[i].Some? ==> res.1[i].value < |g.states|
    decreases count, 1
  {
    var before := Rounds(g, bumps, always, rng, count - 1);
    var after := Step(before.0, bumps, always, RandomAt(rng, count - 1));
    (after.0, before.1 + [after.1])
  }

  lemma RoundsNext(g: Snapshot, bumps: seq<Option<Bump>>, always: bool, rng: (nat, int) -> int, count: nat)
    requires RoundsDrawable(g, bumps, always, rng, count + 1)
    ensures var before := Rounds(g, bumps, always, rng, count);
            var after := Step(before.0, bumps, always, RandomAt(rng, count));
            Rounds(g, bumps, always, rng, count + 1) == (after.0, before.1 + [after.1])
  {
  }

  /** A run of calls that does not trap begins with shorter runs that do not trap. */
  lemma {:induction false} RoundsDrawablePrefix(
    g: Snapshot, bumps: seq<Option<Bump>>, always: bool, rng: (nat, int) -> int, count: nat, i: nat)
    requires RoundsDrawable(g, bumps, always, rng, count) && i <= count
    ensures RoundsDrawable(g, bumps, always, rng, i)
    decreases count - i
  {
    if i < count {
      RoundsDrawablePrefix(g, bumps, always, rng, count - 1, i);
    }
  }

  /** No calls leave the snapshot as it is. */
  lemma RoundsStart(g: Snapshot, bumps: seq<Option<Bump>>, always: bool, rng: (nat, int) -> int, count: nat)
    requires RoundsDrawable(g, bumps, always, rng, count)
    ensures RoundsDrawable(g, bumps, always, rng, 0) && Rounds(g, bumps, always, rng, 0) == (g, [])
  {
    RoundsDrawablePrefix(g, bumps, always, rng, count, 0);
  }

  /** Call `i` of a run that does not trap starts from a drawable snapshot. */
  lemma RoundsDrawableAt(
    g: Snapshot, bumps: seq<Option<Bump>>, always: bool, rng: (nat, int) -> int, count: nat, i: nat)
    requires RoundsDrawable(g, bumps, always, rng, count) && i < count
    ensures RoundsDrawable(g, bumps, always, rng, i) && RoundsDrawable(g, bumps, always, rng, i + 1)
    ensures Drawable(Rounds(g, bumps, always, rng, i).0.states, always)
  {
    RoundsDrawablePrefix(g, bumps, always, rng, count, i + 1);
  }

  /** The item a pick stands for, or nil. */
  function ItemOf<T>(items: seq<T>, pick: Option<nat>): Option<T>
    requires pick.Some? ==> pick.value < |items|
  {
    if pick.Some? then Some(items[pick.value]) else None
  }

  function ResetAll(states: seq<OptionState>): (ts: seq<OptionState>)
    ensures |ts| == |states| && forall i :: 0 <= i < |states| ==> ts[i] == OptionStates.Reset(states[i])
  {
    seq(|states|, i requires 0 <= i < |states| => OptionStates.Reset(states[i]))
  }

  // ----- properties of a round -----

  /** When any option has a positive probability, the pick is one of them: an option at 0 is never chosen. */
  lemma PickIsPositive(states: seq<OptionState>, always: bool, r: int)
    requires CanPick(states, always, r) && !Exhausted(states)
    ensures states[PickWith(states, always, r)].probability > 0
  {
    var es := PositiveOdds(states);
    assert RoundOdds(states, always) == Some(es);
  }

  /** With exactly one option of positive probability, the round picks it whatever the draw. */
  lemma SinglePositiveIsCertain(states: seq<OptionState>, always: bool, r: int, i: nat)
    requires CanPick(states, always, r) && i < |states| && states[i].probability > 0
    requires forall j :: 0 <= j < |states| && j != i ==> states[j].probability <= 0
    ensures PickWith(states, always, r) == i
  {
    var es := PositiveOdds(states);
    var k := PositiveOddsCovers(states, i);
    assert forall m :: 0 <= m < |es| ==> es[m].value == i;
    IncreasingSpan(es);
    assert |es| == 1;
  }

  /**
   * The pick is exactly proportional to probability: among the `total` equally
   * likely draws of a round with at least two positive options, exactly
   * `probability` of them pick a given positive option.
   */
  lemma PickFrequency(states: seq<OptionState>, always: bool, i: nat)
    requires i < |states| && states[i].probability > 0
    requires Drawable(states, always) && TableDraws(PositiveOdds(states))
    ensures |set r: int | 0 <= r < Total(PositiveOdds(states)) && PickWith(states, always, r) == i|
            == states[i].probability
  {
    hide RoundOdds, PickWith, CanPick;
    var es := PositiveOdds(states);
    var j := PositiveOddsCovers(states, i);
    TotalPositive(es);
    forall r | 0 <= r < Total(es)
      ensures CanPick(states, always, r)
      ensures PickWith(states, always, r) == i <==> PickIndex(es, r) == j
    {
      PickWithIff(states, always, r, i, j);
    }
    var picks := set r: int | 0 <= r < Total(es) && PickWith(states, always, r) == i;
    assert picks == set r: int | 0 <= r < Total(es) && PickIndex(es, r) == j;
    PickCount(es, j);
  }

  /** The round picks option `i` exactly when the die picks the row `j` of `i`. */
  lemma PickWithIff(states: seq<OptionState>, always: bool, r: int, i: nat, j: nat)
    requires i < |states| && states[i].probability > 0
    requires Drawable(states, always) && TableDraws(PositiveOdds(states))
    requires 0 <= r < Total(PositiveOdds(states))
    requires j < |PositiveOdds(states)| && PositiveOdds(states)[j].value == i
    ensures CanPick(states, always, r)
    ensures PickWith(states, always, r) == i <==> PickIndex(PositiveOdds(states), r) == j
  {
    var es := PositiveOdds(states);
    assert RoundOdds(states, always) == Some(es);
    TotalPositive(es);
    PickWithIndex(states, always, r);
    DistinctValues(es, PickIndex(es, r), j);
  }

  /** When some option is positive, the pick is the value of the row the die picks in the positive table. */
  lemma PickWithIndex(states: seq<OptionState>, always: bool, r: int)
    requires CanPick(states, always, r) && !Exhausted(states)
    ensures |PositiveOdds(states)| > 0
    ensures PickWith(states, always, r) == PositiveOdds(states)[PickIndex(PositiveOdds(states), r)].value
  {
  }

  /** Rows with strictly increasing values span at least as many values as there are rows. */
  lemma {:induction false} IncreasingSpan(es: seq<Entry>)
    requires |es| > 0
    requires forall k1, k2 :: 0 <= k1 < k2 < |es| ==> es[k1].value < es[k2].value
    ensures es[|es| - 1].value - es[0].value >= |es| - 1
    decreases |es|
  {
    if |es| > 1 {
      var n := |es| - 1;
      IncreasingSpan(es[..n]);
      assert es[n - 1].value < es[n].value;
    }
  }

  /** Rows with strictly increasing values have distinct values. */
  lemma DistinctValues(es: seq<Entry>, p: nat, j: nat)
    requires p < |es| && j < |es|
    requires forall k1, k2 :: 0 <= k1 < k2 < |es| ==> es[k1].value < es[k2].value
    ensures es[p].value == es[j].value <==> p == j
  {
    if p < j {
      assert es[p].value < es[j].value;
    } else if j < p {
      assert es[j].value < es[p].value;
    }
  }

  /**
   * The bookkeeping of a round numbered above every earlier pick: every option
   * learns the round, and when the bumps run exactly the picked option reports
   * `hasBeenSelected`, with its previous pick kept as `lastSelectedIndex`.
   */
  lemma RoundBookkeeping(states: seq<OptionState>, bumps: seq<Option<Bump>>, k: nat, newIndex: int)
    requires |bumps| == |states| && k < |states| && newIndex >= 0
    requires forall i :: 0 <= i < |states| ==> states[i].selectionIndex < newIndex
    ensures forall i :: 0 <= i < |states| ==> AfterRound(states, bumps, k, newIndex)[i].generatorIndex == newIndex
    ensures AfterRound(states, bumps, k, newIndex)[k].selectionIndex == newIndex
    ensures AfterRound(states, bumps, k, newIndex)[k].lastSelectedIndex == states[k].selectionIndex
    ensures forall i :: 0 <= i < |states| && i != k ==>
              AfterRound(states, bumps, k, newIndex)[i].selectionIndex == states[i].selectionIndex
    ensures forall i :: 0 <= i < |states| ==>
              (HasBeenSelected(Announce(Selecting(states, k, newIndex)[i], newIndex)) <==> i == k)
  {
  }

  /** A round never makes a non-negative probability negative. */
  lemma RoundKeepsProbabilitiesNonNegative(states: seq<OptionState>, bumps: seq<Option<Bump>>, k: nat, newIndex: int)
    requires |bumps| == |states| && k < |states|
    requires forall i :: 0 <= i < |states| ==> states[i].probability >= 0
    ensures forall i :: 0 <= i < |states| ==> AfterRound(states, bumps, k, newIndex)[i].probability >= 0
  {
  }

  /**
   * A generator that cannot select (nothing positive, no forced selection)
   * stays so: no later call traps, and every one returns nil and changes nothing.
   */
  lemma {:induction false} ExhaustedStaysExhausted(
    g: Snapshot, bumps: seq<Option<Bump>>, always: bool, rng: (nat, int) -> int, count: nat)
    requires |bumps| == |g.states| && Drawable(g.states, always) && IsRandomStream(rng)
    requires RoundOdds(g.states, always).None?
    ensures RoundsDrawable(g, bumps, always, rng, count)
    ensures Rounds(g, bumps, always, rng, count).0 == g
    ensures forall i :: 0 <= i < count ==> Rounds(g, bumps, always, rng, count).1[i].None?
    decreases count
  {
    if count > 0 {
      ExhaustedStaysExhausted(g, bumps, always, rng, count - 1);
    }
  }

  /** With `alwaysEnsureSelection` and a non-empty pool every call picks something and advances the round counter by one. */
  lemma {:induction false} AlwaysSelects(
    g: Snapshot, bumps: seq<Option<Bump>>, rng: (nat, int) -> int, count: nat)
    requires RoundsDrawable(g, bumps, true, rng, count)
    ensures Rounds(g, bumps, true, rng, count).0.generatorIndex == g.generatorIndex + count
    ensures forall i :: 0 <= i < count ==> Rounds(g, bumps, true, rng, count).1[i].Some?
    decreases count
  {
    if count > 0 {
      AlwaysSelects(g, bumps, rng, count - 1);
    }
  }

  /** After `reset()` the first pick of any option is never counted as consecutive. */
  lemma ResetBreaksStreaks(states: seq<OptionState>, k: nat, newIndex: int)
    requires k < |states| && newIndex >= 1
    ensures !WasConsecutivelySelected(SetSelectionIndex(ResetAll(states)[k], newIndex))
  {
  }

  /** `Step` by cases: a round that returns nil changes nothing; otherwise it performs `AfterRound` on its pick. */
  lemma StepCases(g: Snapshot, bumps: seq<Option<Bump>>, always: bool, random32: int -> int)
    requires |bumps| == |g.states| && Drawable(g.states, always) && IsRandom32(random32)
    ensures RoundOdds(g.states, always).None? ==> Step(g, bumps, always, random32) == (g, None)
    ensures RoundOdds(g.states, always).Some? ==>
              var k := Picked(g.states, always, random32);
              Step(g, bumps, always, random32)
              == (Snapshot(AfterRound(g.states, bumps, k, g.generatorIndex + 1), g.generatorIndex + 1, Some(k)), Some(k))
  {
  }

  // ----- the generator object -----

  /** The states of a sequence of option objects. */
  function StatesOf<T>(pool: seq<GeneratorOption<T>>): (ss: seq<OptionState>)
    reads pool
    ensures |ss| == |pool| && forall i :: 0 <= i < |pool| ==> ss[i] == pool[i].State()
  {
    seq(|pool|, i requires 0 <= i < |pool| reads pool => pool[i].State())
  }

  /** The bumps of a sequence of option objects; they never change, so no heap is read. */
  function BumpsOf<T>(pool: seq<GeneratorOption<T>>): (bs: seq<Option<Bump>>)
    ensures |bs| == |pool| && forall i :: 0 <= i < |pool| ==> bs[i] == pool[i].bump
  {
    seq(|pool|, i requires 0 <= i < |pool| => pool[i].bump)
  }

  /** The items of a sequence of option objects. */
  function ItemsOf<T>(pool: seq<GeneratorOption<T>>): (items: seq<T>)
    ensures |items| == |pool| && forall i :: 0 <= i < |pool| ==> items[i] == pool[i].item
  {
    seq(|pool|, i requires 0 <= i < |pool| => pool[i].item)
  }

  /** The first loop of `getResult`: the rows of the options with positive probability. */
  method PoolOdds<T>(pool: seq<GeneratorOption<T>>) returns (odds: seq<Entry>)
    ensures odds == PositiveOdds(StatesOf(pool))
  {
    ghost var states := StatesOf(pool);
    odds := [];
    var i := 0;
    while i < |pool|
      invariant 0 <= i <= |pool|
      invariant odds == PositiveOdds(states[..i])
    {
      PositiveOddsSnoc(states, i);
      if pool[i].currentProbability > 0 {
        odds := odds + [Entry(i, pool[i].currentProbability)];
      }
      i := i + 1;
    }
    assert states[..|pool|] == states;
  }

  /** The fallback loop of `getResult`: one row of weight 1 per option. */
  method FallbackOdds(n: nat) returns (odds: seq<Entry>)
    ensures odds == UniformOdds(n)
  {
    odds := [];
    var i := 0;
    while i < n
      invariant 0 <= i <= n && odds == UniformOdds(i)
    {
      odds := odds + [Entry(i, 1)];
      i := i + 1;
    }
  }

  /** The table-building part of `getResult`, up to its early nil return. */
  method RoundTable<T>(pool: seq<GeneratorOption<T>>, always: bool) returns (odds: Option<seq<Entry>>)
    ensures odds == RoundOdds(StatesOf(pool), always)
  {
    var rows := PoolOdds(pool);
    if |rows| == 0 {
      if !always {
        return None;
      }
      rows := FallbackOdds(|pool|);
    }
    return Some(rows);
  }

  /** The die `getResult` rolls over the round's table, and the option index it yields. */
  method RollRound(ghost states: seq<OptionState>, always: bool, odds: seq<Entry>, random32: int -> int)
    returns (res: nat)
    requires Drawable(states, always) && IsRandom32(random32) && RoundOdds(states, always) == Some(odds)
    ensures res == Picked(states, always, random32)
  {
    var dice := NewProbability(odds);
    var r := random32(DrawBound(dice.kind));
    assert CanPick(states, always, r);
    var _, value := Roll(dice, r);
    res := value;
  }

  /** `index` maps every option object of the pool to its position, so no object occurs twice. */
  ghost predicate Positions<T>(pool: seq<GeneratorOption<T>>, index: map<GeneratorOption<T>, nat>)
  {
    forall i :: 0 <= i < |pool| ==> pool[i] in index && index[pool[i]] == i
  }

  class Generator<T> {
    const pool: seq<GeneratorOption<T>>
    ghost const index: map<GeneratorOption<T>, nat>
    var generatorIndex: int
    var lastSelectedIndex: Option<nat>
    var alwaysEnsureSelection: bool

    /** The pool holds distinct option objects, and the last pick indexes it. */
    ghost predicate Valid()
      reads this
    {
      Positions(pool, index) && (lastSelectedIndex.Some? ==> lastSelectedIndex.value < |pool|)
    }

    function States(): seq<OptionState>
      reads this, pool
    {
      StatesOf(pool)
    }

    function Current(): Snapshot
      reads this, pool
    {
      Snapshot(States(), generatorIndex, lastSelectedIndex)
    }

    /** `init(array:)`: one option per `(probability, selection)` pair, without a bump. */
    constructor (entries: seq<(int, T)>)
      ensures Valid() && generatorIndex == 0 && lastSelectedIndex == None && alwaysEnsureSelection
      ensures forall i :: 0 <= i < |pool| ==> fresh(pool[i])
      ensures |pool| == |entries|
      ensures forall i :: 0 <= i < |entries| ==>
                pool[i].State() == Initial(entries[i].0) && pool[i].item == entries[i].1 && pool[i].bump == None
    {
      var options: seq<GeneratorOption<T>> := [];
      ghost var positions: map<GeneratorOption<T>, nat> := map[];
      var i := 0;
      while i < |entries|
        invariant 0 <= i <= |entries| && |options| == i
        invariant forall j :: 0 <= j < i ==> fresh(options[j])
        invariant Positions(options, positions)
        invariant forall j :: 0 <= j < i ==>
                    options[j].State() == Initial(entries[j].0) && options[j].item == entries[j].1 && options[j].bump == None
      {
        var option := new GeneratorOption(entries[i].0, entries[i].1);
        options, positions := options + [option], positions[option := i];
        i := i + 1;
      }
      pool, index := options, positions;
      generatorIndex := 0;
      lastSelectedIndex := None;
      alwaysEnsureSelection := true;
    }

    /** `init(arrayWithDrop:)`: one option per `(initial, selection, bump)` triple. */
    constructor WithDrop(entries: seq<(int, T, Bump)>)
      ensures Valid() && generatorIndex == 0 && lastSelectedIndex == None && alwaysEnsureSelection
      ensures forall i :: 0 <= i < |pool| ==> fresh(pool[i])
      ensures |pool| == |entries|
      ensures forall i :: 0 <= i < |entries| ==>
                pool[i].State() == Initial(entries[i].0) && pool[i].item == entries[i].1
                && pool[i].bump == Some(entries[i].2)
    {
      var options: seq<GeneratorOption<T>> := [];
      ghost var positions: map<GeneratorOption<T>, nat> := map[];
      var i := 0;
      while i < |entries|
        invariant 0 <= i <= |entries| && |options| == i
        invariant forall j :: 0 <= j < i ==> fresh(options[j])
        invariant Positions(options, positions)
        invariant forall j :: 0 <= j < i ==>
                    options[j].State() == Initial(entries[j].0) && options[j].item == entries[j].1
                    && options[j].bump == Some(entries[j].2)
      {
        var option := new GeneratorOption.WithBump(entries[i].0, entries[i].1, entries[i].2);
        options, positions := options + [option], positions[option := i];
        i := i + 1;
      }
      pool, index := options, positions;
      generatorIndex := 0;
      lastSelectedIndex := None;
      alwaysEnsureSelection := true;
    }

    /** `init(arrayWithGenerator:array:)`: every option shares one bump. */
    constructor WithGenerator(gen: Bump, entries: seq<(int, T)>)
      ensures Valid() && generatorIndex == 0 && lastSelectedIndex == None && alwaysEnsureSelection
      ensures forall i :: 0 <= i < |pool| ==> fresh(pool[i])
      ensures |pool| == |entries|
      ensures forall i :: 0 <= i < |entries| ==>
                pool[i].State() == Initial(entries[i].0) && pool[i].item == entries[i].1 && pool[i].bump == Some(gen)
    {
      var options: seq<GeneratorOption<T>> := [];
      ghost var positions: map<GeneratorOption<T>, nat> := map[];
      var i := 0;
      while i < |entries|
        invariant 0 <= i <= |entries| && |options| == i
        invariant forall j :: 0 <= j < i ==> fresh(options[j])
        invariant Positions(options, positions)
        invariant forall j :: 0 <= j < i ==>
                    options[j].State() == Initial(entries[j].0) && options[j].item == entries[j].1
                    && options[j].bump == Some(gen)
      {
        var option := new GeneratorOption.WithBump(entries[i].0, entries[i].1, gen);
        options, positions := options + [option], positions[option := i];
        i := i + 1;
      }
      pool, index := options, positions;
      generatorIndex := 0;
      lastSelectedIndex := None;
      alwaysEnsureSelection := true;
    }

    /** `pool.forEach { $0.update(newIndex:) }`. */
    method UpdatePool(newIndex: int, ghost states: seq<OptionState>, ghost bumps: seq<Option<Bump>>)
      requires Valid() && states == States() && bumps == BumpsOf(pool)
      modifies pool
      ensures States() == UpdatedAll(states, newIndex, bumps)
    {
      var i := 0;
      while i < |pool|
        invariant 0 <= i <= |pool|
        invariant forall j :: 0 <= j < i ==> pool[j].State() == UpdateState(states[j], newIndex, bumps[j])
        invariant forall j :: i <= j < |pool| ==> pool[j].State() == states[j]
      {
        pool[i].Update(newIndex);
        i := i + 1;
      }
    }

    /**
     * `getResult()`, with `random32` standing for the generator's random source:
     * it performs the round `Step`, and returns the item of the option it picked,
     * `pick`, or nil.
     */
    method GetResult(random32: int -> int) returns (result: Option<T>, ghost pick: Option<nat>)
      requires Valid() && IsRandom32(random32) && Drawable(States(), alwaysEnsureSelection)
      modifies this, pool
      ensures Valid() && alwaysEnsureSelection == old(alwaysEnsureSelection)
      ensures (Current(), pick) == Step(old(Current()), BumpsOf(pool), alwaysEnsureSelection, random32)
      ensures pick.Some? ==> pick.value < |pool|
      ensures result == ItemOf(ItemsOf(pool), pick)
    {
      hide Step, RoundOdds, Picked, AfterRound, StatesOf, PositiveOdds, UniformOdds;
      var testPool := pool;
      ghost var g, bumps := Current(), BumpsOf(pool);
      StepCases(g, bumps, alwaysEnsureSelection, random32);
      var odds := RoundTable(testPool, alwaysEnsureSelection);
      if odds.None? {
        return None, None;
      }
      var res := RollRound(g.states, alwaysEnsureSelection, odds.value, random32);
      var item := ApplyPick(res, g.states, bumps, g.generatorIndex);
      result, pick := Some(item), Some(res);
    }

    /** The rest of `getResult` once the die has picked option `res`: the new round, `select`, and every `update`. */
    method ApplyPick(res: nat, ghost states: seq<OptionState>, ghost bumps: seq<Option<Bump>>, ghost gi: int)
      returns (item: T)
      requires Valid() && res < |pool| && states == States() && bumps == BumpsOf(pool) && gi == generatorIndex
      modifies this, pool
      ensures Valid() && alwaysEnsureSelection == old(alwaysEnsureSelection)
      ensures item == ItemsOf(pool)[res]
      ensures States() == AfterRound(states, bumps, res, gi + 1)
      ensures generatorIndex == gi + 1 && lastSelectedIndex == Some(res)
    {
      hide StatesOf, UpdatedAll, Selecting, UpdateState;
      generatorIndex := generatorIndex + 1;
      var selection := pool[res];
      SelectOption(res, generatorIndex, states);
      lastSelectedIndex := Some(res);
      UpdatePool(generatorIndex, Selecting(states, res, generatorIndex), bumps);
      item := selection.item;
    }

    /** `selection.select(newIndex:)` on option `res` of the pool. */
    method SelectOption(res: nat, newIndex: int, ghost states: seq<OptionState>)
      requires Valid() && res < |pool| && states == States()
      modifies pool[res]
      ensures States() == Selecting(states, res, newIndex)
    {
      pool[res].Select(newIndex);
    }

    /** `getResults(count:resetLastSelected:)`: `count` calls of `getResult`, call `i` drawing from `rng(i, max)`. */
    method GetResults(count: nat, resetLastSelected: bool, rng: (nat, int) -> int) returns (results: seq<Option<T>>)
      requires Valid() && RoundsDrawable(Current(), BumpsOf(pool), alwaysEnsureSelection, rng, count)
      modifies this, pool
      ensures Valid() && alwaysEnsureSelection == old(alwaysEnsureSelection)
      ensures var (g, picks) := Rounds(old(Current()), BumpsOf(pool), alwaysEnsureSelection, rng, count);
              States() == g.states && generatorIndex == g.generatorIndex
              && lastSelectedIndex == (if resetLastSelected then None else g.lastSelectedIndex)
              && |results| == count
              && forall i :: 0 <= i < count ==> results[i] == ItemOf(ItemsOf(pool), picks[i])
    {
      ghost var picks;
      results, picks := RepeatRounds(count, rng);
      if resetLastSelected {
        ClearLastSelected();
      }
    }

    /** The loop of `getResults`: `count` calls of `getResult`, with `picks` the indices they picked. */
    method RepeatRounds(count: nat, rng: (nat, int) -> int) returns (results: seq<Option<T>>, ghost picks: seq<Option<nat>>)
      requires Valid() && RoundsDrawable(Current(), BumpsOf(pool), alwaysEnsureSelection, rng, count)
      modifies this, pool
      ensures Valid() && alwaysEnsureSelection == old(alwaysEnsureSelection)
      ensures (Current(), picks) == Rounds(old(Current()), BumpsOf(pool), alwaysEnsureSelection, rng, count)
      ensures |results| == count && forall i :: 0 <= i < count ==> results[i] == ItemOf(ItemsOf(pool), picks[i])
    {
      hide Step, Rounds, RoundsLast, RoundsDrawable, Drawable;
      ghost var g0, bumps := Current(), BumpsOf(pool);
      ghost var cur := g0;
      RoundsStart(g0, bumps, alwaysEnsureSelection, rng, count);
      picks := [];
      results := [];
      var i := 0;
      while i < count
        invariant 0 <= i <= count && |results| == i
        invariant Valid() && alwaysEnsureSelection == old(alwaysEnsureSelection)
        invariant bumps == BumpsOf(pool) && RoundsDrawable(g0, bumps, alwaysEnsureSelection, rng, count)
        invariant Current() == cur && RoundsDrawable(g0, bumps, alwaysEnsureSelection, rng, i)
        invariant (cur, picks) == Rounds(g0, bumps, alwaysEnsureSelection, rng, i)
        invariant forall j :: 0 <= j < i ==> results[j] == ItemOf(ItemsOf(pool), picks[j])
      {
        var result;
        ghost var pick;
        RoundsDrawableAt(g0, bumps, alwaysEnsureSelection, rng, count, i);
        RoundsNext(g0, bumps, alwaysEnsureSelection, rng, i);
        result, pick := GetResult(RandomAt(rng, i));
        results := results + [result];
        cur, picks := Current(), picks + [pick];
        i := i + 1;
      }
    }

    /** `clearLastSelected()`. */
    method ClearLastSelected()
      modifies this
      ensures lastSelectedIndex == None
      ensures generatorIndex == old(generatorIndex)
      ensures alwaysEnsureSelection == old(alwaysEnsureSelection)
    {
      lastSelectedIndex := None;
    }

    /** `for item in pool { item.reset() }`. */
    method ResetPool()
      requires Valid()
      modifies pool
      ensures States() == ResetAll(old(States()))
    {
      ghost var states := States();
      var i := 0;
      while i < |pool|
        invariant 0 <= i <= |pool|
        invariant forall j :: 0 <= j < i ==> pool[j].State() == OptionStates.Reset(states[j])
        invariant forall j :: i <= j < |pool| ==> pool[j].State() == states[j]
      {
        pool[i].Reset();
        i := i + 1;
      }
    }

    /** `reset()`: forgets the last pick and resets every option; the round counter is kept. */
    method Reset()
      requires Valid()
      modifies this, pool
      ensures Valid() && alwaysEnsureSelection == old(alwaysEnsureSelection)
      ensures lastSelectedIndex == None && generatorIndex == old(generatorIndex)
      ensures States() == ResetAll(old(States()))
    {
      lastSelectedIndex := None;
      ResetPool();
    }
  }
}
