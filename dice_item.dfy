/**
 * `DiceItem`: an item that carries a set of dice. Rolling it rolls every die
 * once and keeps the total as its result, unless the item is cursed, in which
 * case the result is 0 and nothing is rolled.
 *
 * Each die of a roll draws from its own fresh `Xoroshiro`: die `k` of the set
 * is given the draw `rng(k, max)` of a stream (see `Dice.IsRandomStream`).
 */
module DiceItems {
  import opened Wrappers
  import opened Dice
  import opened Items

  /** The item type every dice item carries. */
  const DiceTypeTag := ItemType("Dice", "\U{1F3B2}", "Dice", "Dice",
                                "Lets you move in an area and perform actions in events and battles.")

  /** The stored fields of a dice item, as a value. */
  datatype DiceItemState = DiceItemState(
    name: string,
    description: string,
    dice: seq<Die>,
    hasResult: bool,
    result: int,
    cursed: bool)

  /** No die of the set traps when rolled. */
  predicate AllRollable(ds: seq<Die>)
  {
    forall k :: 0 <= k < |ds| ==> Rollable(ds[k].kind)
  }

  /** The draw die `k` of a set is given; a die that does not draw ignores it. */
  function DrawOf(kind: DiceKind, rng: (nat, int) -> int, k: nat): (r: int)
    ensures Rollable(kind) && IsRandomStream(rng) ==> CanRoll(kind, r)
  {
    if Draws(kind) then rng(k, DrawBound(kind)) else 0
  }

  /** What die `k` of the set shows after the roll. */
  function ValueAt(ds: seq<Die>, rng: (nat, int) -> int, k: nat): int
    requires k < |ds| && Rollable(ds[k].kind) && IsRandomStream(rng)
  {
    RollValue(ds[k].kind, DrawOf(ds[k].kind, rng, k))
  }

  /** The set after every die is rolled once. */
  function RollAll(ds: seq<Die>, rng: (nat, int) -> int): (rs: seq<Die>)
    requires AllRollable(ds) && IsRandomStream(rng)
    ensures |rs| == |ds| && AllRollable(rs)
    ensures forall k :: 0 <= k < |ds| ==> rs[k] == Rolled(ds[k], DrawOf(ds[k].kind, rng, k))
  {
    seq(|ds|, k requires 0 <= k < |ds| && AllRollable(ds) && IsRandomStream(rng) =>
                Rolled(ds[k], DrawOf(ds[k].kind, rng, k)))
  }

  /** The sum of the first `n` dice's values, accumulated from the front as the roll does. */
  function TotalOf(ds: seq<Die>, rng: (nat, int) -> int, n: nat): int
    requires n <= |ds| && AllRollable(ds) && IsRandomStream(rng)
  {
    if n == 0 then 0 else TotalOf(ds, rng, n - 1) + ValueAt(ds, rng, n - 1)
  }

  /** The set with every die reset. */
  function ResetAll(ds: seq<Die>): (rs: seq<Die>)
    ensures |rs| == |ds| && forall k :: 0 <= k < |ds| ==> rs[k] == Dice.Reset(ds[k])
  {
    seq(|ds|, k requires 0 <= k < |ds| => Dice.Reset(ds[k]))
  }

  /**
   * `roll()` on the stored fields. A cursed item sets its result to 0 and
   * returns; otherwise every die is rolled once, the result is their total
   * and the item has a result.
   */
  function RollState(st: DiceItemState, rng: (nat, int) -> int): (t: DiceItemState)
    requires AllRollable(st.dice) && IsRandomStream(rng)
    ensures t.name == st.name && t.description == st.description && t.cursed == st.cursed
    ensures st.cursed ==> t == st.(result := 0)
    ensures !st.cursed ==> t.hasResult && t.result == TotalOf(st.dice, rng, |st.dice|)
    ensures !st.cursed ==> t.dice == RollAll(st.dice, rng)
  {
    if st.cursed then st.(result := 0)
    else st.(dice := RollAll(st.dice, rng), result := TotalOf(st.dice, rng, |st.dice|), hasResult := true)
  }

  /** `reset()` on the stored fields. */
  function ResetState(st: DiceItemState): (t: DiceItemState)
    ensures t.name == st.name && t.description == st.description && t.cursed == st.cursed
    ensures !t.hasResult && t.result == 0 && t.dice == ResetAll(st.dice)
  {
    st.(dice := ResetAll(st.dice), hasResult := false, result := 0)
  }

  class DiceItem {
    var name: string
    var description: string
    const isStackable: bool := true
    const itemType: ItemType := DiceTypeTag
    var dice: seq<Die>
    var hasResult: bool
    var result: int
    var cursed: bool

    function State(): DiceItemState
      reads this
    {
      DiceItemState(name, description, dice, hasResult, result, cursed)
    }

    /** `init(name:description:dice:)`. */
    constructor (name: string, description: string, dice: seq<Die>)
      ensures State() == DiceItemState(name, description, dice, false, 0, false)
    {
      this.name := name;
      this.description := description;
      this.dice := dice;
      hasResult := false;
      result := 0;
      cursed := false;
    }

    /** `clone()`: a new dice item with the same name, description, dice and curse, and no result. */
    method Clone() returns (c: DiceItem)
      ensures fresh(c)
      ensures c.State() == DiceItemState(name, description, dice, false, 0, cursed)
    {
      c := new DiceItem(name, description, dice);
      c.cursed := cursed;
    }

    /** `getResult`: the stored result, which `roll()` returns and `reset()` sets to 0. */
    function GetResult(): (r: int)
      reads this
      ensures r == State().result
    {
      result
    }

    /** `getFullName()`: the name followed by " Dice". */
    function GetFullName(): (s: string)
      reads this
      ensures s == name + " Dice"
      ensures |s| == |name| + 5 && s[..|name|] == name
    {
      name + " Dice"
    }

    /** `roll()`. */
    method Roll(rng: (nat, int) -> int) returns (value: int)
      requires AllRollable(dice) && IsRandomStream(rng)
      modifies this
      ensures State() == RollState(old(State()), rng)
      ensures value == GetResult()
    {
      var tempResult := 0;
      var rolledDice: seq<Die> := [];
      if cursed {
        result := 0;
        return result;
      }
      var ds := dice;
      var k := 0;
      while k < |ds|
        invariant 0 <= k <= |ds| && |rolledDice| == k
        invariant unchanged(this)
        invariant tempResult == TotalOf(ds, rng, k)
        invariant forall j :: 0 <= j < k ==> rolledDice[j] == Rolled(ds[j], DrawOf(ds[j].kind, rng, j))
      {
        var d := ds[k];
        var newD, v := Dice.Roll(d, DrawOf(d.kind, rng, k));
        tempResult := tempResult + v;
        rolledDice := rolledDice + [newD];
        k := k + 1;
      }
      assert rolledDice == RollAll(ds, rng);
      dice := rolledDice;
      result := tempResult;
      hasResult := true;
      return result;
    }

    /** `reset()`. */
    method Reset()
      modifies this
      ensures State() == ResetState(old(State()))
    {
      var resetDice: seq<Die> := [];
      var k := 0;
      while k < |dice|
        invariant 0 <= k <= |dice| && |resetDice| == k
        invariant unchanged(this)
        invariant forall j :: 0 <= j < k ==> resetDice[j] == Dice.Reset(dice[j])
      {
        resetDice := resetDice + [Dice.Reset(dice[k])];
        k := k + 1;
      }
      dice := resetDice;
      hasResult := false;
      result := 0;
    }
  }

  // ----- properties of a roll -----

  /** A roll never changes what the dice are, so they can be rolled again. */
  lemma RollKeepsKinds(ds: seq<Die>, rng: (nat, int) -> int)
    requires AllRollable(ds) && IsRandomStream(rng)
    ensures forall k :: 0 <= k < |ds| ==> RollAll(ds, rng)[k].kind == ds[k].kind
  {
  }

  /** Every die but a weighted one shows its rolled value afterwards; a weighted die still has no result. */
  lemma RollRecordsValues(ds: seq<Die>, rng: (nat, int) -> int, k: nat)
    requires AllRollable(ds) && IsRandomStream(rng) && k < |ds|
    ensures !ds[k].kind.Probability? ==> GetResult(RollAll(ds, rng)[k]) == Some(ValueAt(ds, rng, k))
    ensures ds[k].kind.Probability? && Consistent(ds[k]) ==> GetResult(RollAll(ds, rng)[k]) == None
  {
  }

  /** The lowest and highest total a set of range and constant dice can roll. */
  function Low(ds: seq<Die>): int
  {
    if ds == [] then 0
    else Low(ds[..|ds| - 1]) + match ds[|ds| - 1].kind
      case Range(lo, _) => lo
      case Constant(c) => c
      case _ => 0
  }

  function High(ds: seq<Die>): int
  {
    if ds == [] then 0
    else High(ds[..|ds| - 1]) + match ds[|ds| - 1].kind
      case Range(_, hi) => hi
      case Constant(c) => c
      case _ => 0
  }

  /** The total of a roll of range and constant dice lies between the sums of their lower and upper bounds. */
  lemma {:induction false} TotalBounds(ds: seq<Die>, rng: (nat, int) -> int, n: nat)
    requires AllRollable(ds) && IsRandomStream(rng) && n <= |ds|
    requires forall k :: 0 <= k < |ds| ==> ds[k].kind.Range? || ds[k].kind.Constant?
    ensures Low(ds[..n]) <= TotalOf(ds, rng, n) <= High(ds[..n])
    decreases n
  {
    if n > 0 {
      TotalBounds(ds, rng, n - 1);
      assert ds[..n][..n - 1] == ds[..n - 1];
      assert ds[..n][n - 1] == ds[n - 1];
    }
  }

  /** A cursed item rolls 0 without touching its dice, and a reset undoes any roll. */
  lemma ResetUndoesRoll(st: DiceItemState, rng: (nat, int) -> int)
    requires AllRollable(st.dice) && IsRandomStream(rng)
    ensures st.cursed ==> RollState(st, rng).result == 0 && RollState(st, rng).dice == st.dice
    ensures ResetState(RollState(st, rng)) == ResetState(st)
    ensures ResetState(ResetState(st)) == ResetState(st)
  {
    var rs := RollState(st, rng).dice;
    assert ResetAll(rs) == ResetAll(st.dice) by {
      forall k | 0 <= k < |rs|
        ensures ResetAll(rs)[k] == ResetAll(st.dice)[k]
      {
      }
    }
    var ts := ResetAll(st.dice);
    assert ResetAll(ts) == ts;
  }

  // ----- rollItemSet -----

  /** What a player holds: a dice item, or an item of some other kind. */
  datatype Held = HeldDice(dice: DiceItem) | HeldOther(item: Item)

  /** A player together with the item they hold, if any. */
  datatype Entry<P> = Entry(player: P, item: Option<Held>)

  /** The entry holds an item that is not a dice item. */
  predicate HoldsOther<P>(e: Entry<P>)
  {
    e.item.Some? && e.item.value.HeldOther?
  }

  /** The dice item an entry holds, if any. */
  function DiceOf<P>(e: Entry<P>): Option<DiceItem>
  {
    if e.item.Some? && e.item.value.HeldDice? then Some(e.item.value.dice) else None
  }

  /** The dice items of a set, each at most once. */
  ghost predicate DistinctDice<P>(entries: seq<Entry<P>>)
  {
    forall j, k :: 0 <= j < k < |entries| && DiceOf(entries[j]).Some? && DiceOf(entries[k]).Some? ==>
      DiceOf(entries[j]).value != DiceOf(entries[k]).value
  }

  ghost function DiceObjects<P>(entries: seq<Entry<P>>): set<object>
  {
    set j | 0 <= j < |entries| && DiceOf(entries[j]).Some? :: DiceOf(entries[j]).value
  }

  /**
   * `rollItemSet(_:)`: nil if any entry holds an item that is not a dice
   * item (nothing is rolled then); otherwise the same players in the same
   * order, each with their dice item, which is rolled once, with draws
   * `rngs(j)` for entry `j`.
   */
  method RollItemSet<P>(entries: seq<Entry<P>>, rngs: nat -> ((nat, int) -> int))
    returns (results: Option<seq<(P, Option<DiceItem>)>>)
    requires DistinctDice(entries)
    requires forall j :: 0 <= j < |entries| && DiceOf(entries[j]).Some? ==>
               AllRollable(DiceOf(entries[j]).value.dice) && IsRandomStream(rngs(j))
    modifies DiceObjects(entries)
    ensures results.None? <==> exists j :: 0 <= j < |entries| && HoldsOther(entries[j])
    ensures results.None? ==> forall j :: 0 <= j < |entries| && DiceOf(entries[j]).Some? ==>
              unchanged(DiceOf(entries[j]).value)
    ensures results.Some? ==> |results.value| == |entries|
    ensures results.Some? ==> forall j :: 0 <= j < |entries| ==>
              results.value[j] == (entries[j].player, DiceOf(entries[j]))
    ensures results.Some? ==> forall j :: 0 <= j < |entries| && DiceOf(entries[j]).Some? ==>
              var d := DiceOf(entries[j]).value;
              d.State() == RollState(old(d.State()), rngs(j))
  {
    hide RollState, AllRollable;
    var j := 0;
    while j < |entries|
      invariant 0 <= j <= |entries|
      invariant forall k :: 0 <= k < j ==> !HoldsOther(entries[k])
    {
      if HoldsOther(entries[j]) {
        return None;
      }
      j := j + 1;
    }
    var out: seq<(P, Option<DiceItem>)> := [];
    j := 0;
    while j < |entries|
      invariant 0 <= j <= |entries| && |out| == j
      invariant forall k :: 0 <= k < j ==> out[k] == (entries[k].player, DiceOf(entries[k]))
      invariant forall k :: 0 <= k < j && DiceOf(entries[k]).Some? ==>
                  var d := DiceOf(entries[k]).value;
                  d.State() == RollState(old(d.State()), rngs(k))
      invariant forall k :: j <= k < |entries| && DiceOf(entries[k]).Some? ==>
                  var d := DiceOf(entries[k]).value;
                  d.State() == old(d.State())
    {
      var dice := DiceOf(entries[j]);
      if dice.Some? {
        var _ := dice.value.Roll(rngs(j));
      }
      out := out + [(entries[j].player, dice)];
      j := j + 1;
    }
    return Some(out);
  }
}
