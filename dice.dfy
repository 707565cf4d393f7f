/**
 * The `Dice` value type: a die that rolls under one of four policies (a closed
 * range, a uniform pick from a list, a constant, or a weighted table) and caches
 * its last result.
 *
 * The random source (`Xoroshiro.random32(max:)`) is not modelled: every roll is
 * given the draw `r` the source would have produced, with `0 <= r <= max`.
 */
module Dice {
  import opened Wrappers

  /** One row of a probability table: the value it yields and its odds. */
  datatype Entry = Entry(value: int, odds: int)

  /** The four ways a die rolls (`DiceType` together with the matching stored field). */
  datatype DiceKind =
    | Range(lowerBound: int, upperBound: int)
    | Selection(selection: seq<int>)
    | Constant(constant: int)
    | Probability(probability: seq<Entry>)

  /** A die: how it rolls, whether it holds a result, and that result. */
  datatype Die = Die(kind: DiceKind, hasResult: bool, result: int)

  // ----- sums over a probability table -----

  function Weights(es: seq<Entry>): (ws: seq<int>)
    ensures |ws| == |es| && forall i :: 0 <= i < |es| ==> ws[i] == es[i].odds
  {
    seq(|es|, i requires 0 <= i < |es| => es[i].odds)
  }

  /** Sum of a sequence, accumulated from the front as the source's `total` is. */
  function Sum(ws: seq<int>): int
  {
    if ws == [] then 0 else Sum(ws[..|ws| - 1]) + ws[|ws| - 1]
  }

  function Total(es: seq<Entry>): int
  {
    Sum(Weights(es))
  }

  /** The sum of the first `k` weights of a table. */
  function PrefixSum(es: seq<Entry>, k: nat): int
    requires k <= |es|
  {
    Sum(Weights(es)[..k])
  }

  /** The running-sum table `odds` that `roll` builds: entry `j` is the sum of the first `j + 1` weights. */
  function RunningSums(ws: seq<int>): (odds: seq<int>)
    ensures |odds| == |ws|
    ensures forall j :: 0 <= j < |ws| ==> odds[j] == Sum(ws[..j + 1])
  {
    seq(|ws|, j requires 0 <= j < |ws| => Sum(ws[..j + 1]))
  }

  /**
   * The scan over `odds`: the first index whose running sum reaches `target`
   * (the `==` and `>` branches), or the last index when none does (the fallback).
   */
  function Scan(odds: seq<int>, target: int): (j: nat)
    requires |odds| > 0
    ensures j < |odds|
    ensures forall k :: 0 <= k < j ==> odds[k] < target
    ensures odds[j] >= target || (j == |odds| - 1 && odds[j] < target)
    decreases |odds|
  {
    if odds[0] >= target || |odds| == 1 then 0 else 1 + Scan(odds[1..], target)
  }

  /** The scan's answer is the first index that reaches the target. */
  lemma ScanIsFirst(odds: seq<int>, target: int, j: nat)
    requires j < |odds| && odds[j] >= target
    requires forall k :: 0 <= k < j ==> odds[k] < target
    ensures Scan(odds, target) == j
  {
  }

  // ----- when a roll draws, and which draws it accepts -----

  /** A probability table with zero total or a single row answers without drawing. */
  predicate TableDraws(es: seq<Entry>)
  {
    !(Total(es) == 0 || |es| == 1)
  }

  /** Whether rolling this die consumes a random number. */
  predicate Draws(kind: DiceKind)
  {
    match kind
    case Range(_, _) => true
    case Selection(_) => true
    case Constant(_) => false
    case Probability(es) => TableDraws(es)
  }

  /** The `max` a drawing roll passes to `random32(max:)`. */
  function DrawBound(kind: DiceKind): int
  {
    match kind
    case Range(lo, hi) => hi - lo
    case Selection(vs) => |vs| - 1
    case Constant(_) => 0
    case Probability(es) => Total(es) - 1
  }

  /** The largest `UInt32`: `UInt32(x)` traps for an `x` outside `[0, UInt32Max]`. */
  const UInt32Max: int := 0xFFFF_FFFF

  /**
   * The roll does not trap. Every bound passed to `random32(max:)` must
   * convert to `UInt32`: the span of a range, the last index of a selection
   * (so an empty one traps) and `total - 1` of a drawing table (so a negative
   * or zero total traps there). An empty table traps on `probability[0]`.
   */
  predicate Rollable(kind: DiceKind)
  {
    match kind
    case Range(lo, hi) => 0 <= hi - lo <= UInt32Max
    case Selection(vs) => 0 < |vs| <= UInt32Max + 1
    case Constant(_) => true
    case Probability(es) => |es| > 0 && (TableDraws(es) ==> 0 < Total(es) <= UInt32Max + 1)
  }

  /** The roll does not trap, and `r` is a draw `random32(max:)` can return for it. */
  predicate CanRoll(kind: DiceKind, r: int)
  {
    Rollable(kind) && (Draws(kind) ==> 0 <= r <= DrawBound(kind))
  }

  /** A stand-in for `Xoroshiro.random32(max:)`: any function whose answer for a bound `max` lies in `[0, max]`. */
  ghost predicate IsRandom32(random32: int -> int)
  {
    forall max :: 0 <= max ==> 0 <= random32(max) <= max
  }

  /** A sequence of independent `random32` calls: call `i` with bound `max` answers `rng(i, max)`. */
  ghost predicate IsRandomStream(rng: (nat, int) -> int)
  {
    forall i: nat, max :: 0 <= max ==> 0 <= rng(i, max) <= max
  }

  function RandomAt(rng: (nat, int) -> int, i: nat): (random32: int -> int)
    requires IsRandomStream(rng)
    ensures IsRandom32(random32)
  {
    max => rng(i, max)
  }

  // ----- the specification of a roll -----

  /** The row of a probability table a roll picks with draw `r`. */
  function PickIndex(es: seq<Entry>, r: int): (j: nat)
    requires |es| > 0
    ensures j < |es|
  {
    if !TableDraws(es) then 0 else Scan(RunningSums(Weights(es)), r + 1)
  }

  /** The value a roll returns when the source draws `r`. */
  function RollValue(kind: DiceKind, r: int): (v: int)
    requires CanRoll(kind, r)
    ensures kind.Range? ==> kind.lowerBound <= v <= kind.upperBound
    ensures kind.Selection? ==> v in kind.selection
    ensures kind.Constant? ==> v == kind.constant
    ensures kind.Probability? ==> exists j :: 0 <= j < |kind.probability| && v == kind.probability[j].value
    ensures kind.Probability? && !Draws(kind) ==> v == kind.probability[0].value
  {
    match kind
    case Range(lo, _) => r + lo
    case Selection(vs) => vs[r]
    case Constant(c) => c
    case Probability(es) => es[PickIndex(es, r)].value
  }

  /** The die after a roll: a probability roll returns before `hasResult` is set. */
  function Rolled(d: Die, r: int): (d': Die)
    requires CanRoll(d.kind, r)
    ensures d'.kind == d.kind
    ensures !d.kind.Probability? ==> GetResult(d') == Some(RollValue(d.kind, r))
    ensures d.kind.Probability? ==> d'.hasResult == d.hasResult
    ensures d.kind.Probability? && !Draws(d.kind) ==> d' == d
  {
    if d.kind.Probability? then
      if Draws(d.kind) then d.(result := RollValue(d.kind, r)) else d
    else
      d.(hasResult := true, result := RollValue(d.kind, r))
  }

  // ----- initialisers, getResult, reset -----

  function NewRange(lowerBound: int, upperBound: int): (d: Die)
    requires lowerBound <= upperBound  // a ClosedRange cannot be built otherwise
    ensures d.kind == Range(lowerBound, upperBound) && GetResult(d) == None
  {
    Die(Range(lowerBound, upperBound), false, 0)
  }

  function NewSelection(selection: seq<int>): (d: Die)
    ensures d.kind == Selection(selection) && GetResult(d) == None
  {
    Die(Selection(selection), false, 0)
  }

  function NewConstant(constant: int): (d: Die)
    ensures d.kind == Constant(constant) && GetResult(d) == None
  {
    Die(Constant(constant), false, 0)
  }

  function NewProbability(probability: seq<Entry>): (d: Die)
    ensures d.kind == Probability(probability) && GetResult(d) == None
  {
    Die(Probability(probability), false, 0)
  }

  /** `getResult`: the cached result, or nothing before a roll. */
  function GetResult(d: Die): (o: Option<int>)
    ensures o.Some? <==> d.hasResult
    ensures o.Some? ==> o.value == d.result
  {
    if d.hasResult then Some(d.result) else None
  }

  /** `reset`: forgets the result. */
  function Reset(d: Die): (d': Die)
    ensures d'.kind == d.kind && GetResult(d') == None && d'.result == 0
  {
    d.(hasResult := false, result := 0)
  }

  /** The state every initialiser produces and every operation keeps: a probability die never holds a result. */
  predicate Consistent(d: Die)
  {
    d.kind.Probability? ==> !d.hasResult
  }

  // ----- properties of the weighted table -----

  /** With non-negative weights the running sums never decrease. */
  lemma {:induction false} SumPrefixMonotone(ws: seq<int>, a: nat, b: nat)
    requires a <= b <= |ws|
    requires forall i :: 0 <= i < |ws| ==> ws[i] >= 0
    ensures Sum(ws[..a]) <= Sum(ws[..b])
    decreases b - a
  {
    if a < b {
      SumPrefixMonotone(ws, a, b - 1);
      assert ws[..b][..b - 1] == ws[..b - 1];
    }
  }

  /**
   * When a table draws and its total is positive, the scan stops at a row whose
   * running sum reaches the draw: the last-row fallback is never taken, and the
   * picked row `j` is the one with `Sum(first j weights) <= r < Sum(first j + 1 weights)`.
   */
  lemma PickFindsDraw(es: seq<Entry>, r: int)
    requires |es| > 0 && TableDraws(es) && 0 <= r < Total(es)
    ensures PrefixSum(es, PickIndex(es, r) + 1) > r
    ensures forall k :: 1 <= k <= PickIndex(es, r) ==> PrefixSum(es, k) <= r
  {
    var ws := Weights(es);
    var odds := RunningSums(ws);
    assert ws[..|es|] == ws;
    assert odds[|es| - 1] == Total(es);
    forall k | 1 <= k <= PickIndex(es, r)
      ensures PrefixSum(es, k) <= r
    {
      assert odds[k - 1] == PrefixSum(es, k);
    }
  }

  /** A weighted pick with non-negative weights never returns a row of weight zero. */
  lemma PickIsPositive(es: seq<Entry>, r: int)
    requires CanRoll(Probability(es), r) && TableDraws(es)
    requires forall i :: 0 <= i < |es| ==> es[i].odds >= 0
    ensures es[PickIndex(es, r)].odds > 0
  {
    var ws := Weights(es);
    var j := PickIndex(es, r);
    PickFindsDraw(es, r);
    assert ws[..0] == [];
    assert PrefixSum(es, j) <= r;
    assert ws[..j + 1][..j] == ws[..j];
    assert PrefixSum(es, j + 1) == PrefixSum(es, j) + es[j].odds;
  }

  /** With non-negative weights, draw `r` picks row `j` exactly when it falls in that row's slice of `[0, total)`. */
  lemma PickIndexIff(es: seq<Entry>, r: int, j: nat)
    requires |es| > 0 && TableDraws(es) && 0 <= r < Total(es) && j < |es|
    requires forall i :: 0 <= i < |es| ==> es[i].odds >= 0
    ensures PickIndex(es, r) == j <==> PrefixSum(es, j) <= r < PrefixSum(es, j + 1)
  {
    var ws := Weights(es);
    var p := PickIndex(es, r);
    PickFindsDraw(es, r);
    if p == j {
      if j > 0 {
        assert PrefixSum(es, j) <= r;
      }
    } else if p < j {
      SumPrefixMonotone(ws, p + 1, j);
    } else {
      assert PrefixSum(es, j + 1) <= r;
    }
  }

  /** A non-empty table of positive weights has a positive total. */
  lemma TotalPositive(es: seq<Entry>)
    requires |es| > 0 && forall i :: 0 <= i < |es| ==> es[i].odds > 0
    ensures Total(es) > 0
  {
    var ws := Weights(es);
    var n := |es| - 1;
    SumPrefixMonotone(ws, 0, n);
    assert ws[..0] == [];
    assert ws[..|es|] == ws;
    assert ws[..n + 1][..n] == ws[..n];
  }

  predicate InSlice(x: int, lo: int, hi: int)
  {
    lo <= x < hi
  }

  /** The integers in `[lo, hi)`. */
  lemma {:induction false} IntervalSize(lo: int, hi: int)
    requires lo <= hi
    ensures |set x: int | lo <= x < hi && InSlice(x, lo, hi)| == hi - lo
    decreases hi - lo
  {
    if lo < hi {
      var h := hi - 1;
      IntervalSize(lo, h);
      assert (set x: int | lo <= x < hi && InSlice(x, lo, hi)) == (set x: int | lo <= x < h && InSlice(x, lo, h)) + {h};
    } else {
      assert (set x: int | lo <= x < hi && InSlice(x, lo, hi)) == {};
    }
  }

  /**
   * The weighting is exact: of the `total` equally likely draws `0 .. total - 1`,
   * exactly `odds` of them pick a given row (so a weight-3 row is picked three
   * times as often as a weight-1 row, and a weight-0 row never).
   */
  lemma PickCount(es: seq<Entry>, j: nat)
    requires |es| > 0 && TableDraws(es) && Total(es) > 0 && j < |es|
    requires forall i :: 0 <= i < |es| ==> es[i].odds >= 0
    ensures |set r: int | 0 <= r < Total(es) && PickIndex(es, r) == j| == es[j].odds
  {
    var ws := Weights(es);
    var lo, hi := PrefixSum(es, j), PrefixSum(es, j + 1);
    assert ws[..j + 1][..j] == ws[..j];
    assert ws[..|es|] == ws;
    SumPrefixMonotone(ws, 0, j);
    SumPrefixMonotone(ws, j + 1, |es|);
    assert ws[..0] == [];
    var picks := set r: int | 0 <= r < Total(es) && PickIndex(es, r) == j;
    forall r | 0 <= r < Total(es)
      ensures PickIndex(es, r) == j <==> lo <= r < hi
    {
      PickIndexIff(es, r, j);
    }
    assert picks == set x: int | lo <= x < hi && InSlice(x, lo, hi);
    IntervalSize(lo, hi);
  }

  /** Every initialiser, `roll` and `reset` keep a probability die without a result, so its `getResult` stays nil. */
  lemma ProbabilityDieNeverHasResult(d: Die, r: int)
    requires Consistent(d) && CanRoll(d.kind, r)
    ensures Consistent(Rolled(d, r)) && Consistent(Reset(d))
    ensures d.kind.Probability? ==> GetResult(Rolled(d, r)) == None
  {
  }

  // ----- the roll itself -----

  /** `roll()`. */
  method Roll(d: Die, r: int) returns (rolled: Die, value: int)
    requires CanRoll(d.kind, r)
    ensures value == RollValue(d.kind, r)
    ensures rolled == Rolled(d, r)
  {
    match d.kind {
      case Range(lo, hi) =>
        var randomNumber := r;  // random32(max: UInt32(upperBound - lowerBound))
        value := randomNumber + lo;
        rolled := d.(result := value, hasResult := true);
      case Selection(vs) =>
        var randomNumber := r;  // random32(max: UInt32(count - 1))
        value := vs[randomNumber];
        rolled := d.(result := value, hasResult := true);
      case Constant(c) =>
        value := c;
        rolled := d.(result := value, hasResult := true);
      case Probability(es) =>
        rolled, value := RollProbability(d, r);
    }
  }

  /** The first loop of the probability branch: the running sums and their total. */
  method BuildOdds(es: seq<Entry>) returns (odds: seq<int>, total: int)
    ensures odds == RunningSums(Weights(es)) && total == Total(es)
  {
    ghost var ws := Weights(es);
    odds, total := [], 0;
    var i := 0;
    while i < |es|
      invariant 0 <= i <= |es|
      invariant |odds| == i
      invariant total == Sum(ws[..i])
      invariant forall j :: 0 <= j < i ==> odds[j] == Sum(ws[..j + 1])
    {
      assert ws[..i + 1][..i] == ws[..i];
      total := total + es[i].odds;
      odds := odds + [total];
      i := i + 1;
    }
    assert ws[..|es|] == ws;
  }

  /** The probability branch of `roll()`: builds the running sums, then scans them with early return. */
  method RollProbability(d: Die, r: int) returns (rolled: Die, value: int)
    requires d.kind.Probability? && CanRoll(d.kind, r)
    ensures value == RollValue(d.kind, r)
    ensures rolled == Rolled(d, r)
  {
    var es := d.kind.probability;
    var odds, total := BuildOdds(es);
    // An empty table has total 0 and traps here, so the source's later
    // `count == 0` guard is never reached.
    if total == 0 || |es| == 1 {
      return d, es[0].value;
    }
    var randomNumber := r + 1;  // random32(max: UInt32(total - 1)) + 1
    var lastValue := es[|es| - 1].value;
    assert odds[|odds| - 1] == total by {
      assert Weights(es)[..|es|] == Weights(es);
    }
    var j := 0;
    while j < |odds|
      invariant 0 <= j <= |odds|
      invariant forall k :: 0 <= k < j ==> odds[k] < randomNumber
    {
      if odds[j] == randomNumber {
        ScanIsFirst(odds, randomNumber, j);
        return d.(result := es[j].value), es[j].value;
      } else if odds[j] > randomNumber {
        ScanIsFirst(odds, randomNumber, j);
        return d.(result := es[j].value), es[j].value;
      }
      j := j + 1;
    }
    // The last running sum is the total, which is at least the draw.
    assert false;
    value := lastValue;
    rolled := d.(result := lastValue);
  }
}
