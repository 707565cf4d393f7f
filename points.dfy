/**
 * Point bookkeeping: a point type (a currency, health, turns), a container
 * holding an amount of one type, the receipts a change produces, and a
 * manager holding point instances of several types. Amounts are integers;
 * the floating-point case of `PointValue` is not modelled.
 *
 * `allowNegativeValue`, which the container reads from its type, is a flag
 * of the type here. What an instance does when `add` is called on it is not
 * part of this model and is given as `addTo`; a new instance of a type holds
 * the amount it was created with.
 */
module Points {
  import opened Wrappers

  datatype PointType = PointType(
    name: string,
    pluralisedName: string,
    symbol: string,
    instance: nat,
    allowNegativeValue: bool)

  /** `==` on point types: name and symbol, nothing else. */
  predicate TypeEqual(lhs: PointType, rhs: PointType)
  {
    lhs.name == rhs.name && lhs.symbol == rhs.symbol
  }

  /** `hashValue`: the hashes of the name and the symbol, combined by exclusive or. */
  function TypeHash(t: PointType, stringHash: string -> bv64): bv64
  {
    Xor(stringHash(t.name), stringHash(t.symbol))
  }

  function Xor(x: bv64, y: bv64): bv64
  {
    x ^ y
  }

  datatype PointUnit = PointUnit(name: string, pluralisedName: string, description: string, pointType: PointType, value: int)

  datatype PointReceipt = PointReceipt(
    pointType: PointType,
    previousAmount: int,
    currentAmount: int,
    difference: int,
    units: Option<seq<PointUnit>>)

  /** `init(type:amountBefore:amountAfter:change:)`: the values as given, and no units. */
  function NewReceipt(t: PointType, amountBefore: int, amountAfter: int, change: int): (r: PointReceipt)
    ensures r.pointType == t && r.previousAmount == amountBefore && r.currentAmount == amountAfter
    ensures r.difference == change && r.units.None?
  {
    PointReceipt(t, amountBefore, amountAfter, change, None)
  }

  /** The sum of the units' values. */
  function UnitsTotal(units: seq<PointUnit>): int
  {
    if units == [] then 0 else UnitsTotal(units[..|units| - 1]) + units[|units| - 1].value
  }

  /**
   * `init(type:amountBefore:amountAfter:change:)` with units, integer case:
   * the difference is the sum of the units' values. The sign flip it guards
   * with `amountBefore > amountBefore` never happens.
   */
  method UnitReceipt(t: PointType, amountBefore: int, amountAfter: int, change: seq<PointUnit>) returns (r: PointReceipt)
    ensures r.pointType == t && r.previousAmount == amountBefore && r.currentAmount == amountAfter
    ensures r.units == Some(change)
    ensures r.difference == UnitsTotal(change)
    ensures change == [] ==> r.difference == 0
  {
    var result := 0;
    var i := 0;
    while i < |change|
      invariant 0 <= i <= |change|
      invariant result == UnitsTotal(change[..i])
    {
      assert change[..i + 1][..i] == change[..i];
      result := result + change[i].value;
      i := i + 1;
    }
    assert change[..i] == change;
    if amountBefore > amountBefore {
      result := result * -1;
    }
    r := PointReceipt(t, amountBefore, amountAfter, result, Some(change));
  }

  /** The amount after `changeAmount(_:)`: added, then raised to 0 unless the type allows negative values. */
  function ChangedAmount(amount: int, change: int, allowNegativeValue: bool): int
  {
    var sum := amount + change;
    if !allowNegativeValue && sum < 0 then 0 else sum
  }

  class PointContainer {
    var amount: int
    var pointType: PointType

    /** `init(withType:initialAmount:)`. */
    constructor (t: PointType, initialAmount: int)
      ensures amount == initialAmount && pointType == t
    {
      pointType := t;
      amount := initialAmount;
    }

    /**
     * `changeAmount(_:)`: the new amount, and a receipt of the amounts before
     * and after whose change is what actually happened, not what was asked.
     */
    method ChangeAmount(change: int) returns (receipt: PointReceipt)
      modifies this
      ensures pointType == old(pointType)
      ensures amount == ChangedAmount(old(amount), change, pointType.allowNegativeValue)
      ensures receipt == NewReceipt(pointType, old(amount), amount, amount - old(amount))
    {
      var lastAmount := amount;
      amount := amount + change;
      if !pointType.allowNegativeValue {
        amount := if amount > 0 then amount else 0;
      }
      var actual := amount - lastAmount;
      receipt := NewReceipt(pointType, lastAmount, amount, actual);
    }
  }

  /** `==` on containers: the same amount and equal types. */
  predicate ContainerEqual(lhs: PointContainer, rhs: PointContainer)
    reads lhs, rhs
  {
    lhs.amount == rhs.amount && TypeEqual(lhs.pointType, rhs.pointType)
  }

  /** A point instance held by a manager: its type and its value. */
  datatype PointInstance = PointInstance(pointType: PointType, value: int)

  /** The position of the first instance whose type is equal to `t`. */
  function FirstOfType(container: seq<PointInstance>, t: PointType): (r: Option<nat>)
    ensures r.None? <==> forall i :: 0 <= i < |container| ==> !TypeEqual(container[i].pointType, t)
    ensures r.Some? ==> r.value < |container| && TypeEqual(container[r.value].pointType, t)
                        && forall i :: 0 <= i < r.value ==> !TypeEqual(container[i].pointType, t)
  {
    if |container| == 0 then None
    else if TypeEqual(container[0].pointType, t) then Some(0)
    else match FirstOfType(container[1..], t)
      case None => None
      case Some(j) => Some(j + 1)
  }

  /** The position of the first instance whose type has the name. */
  function FirstNamed(container: seq<PointInstance>, typeName: string): (r: Option<nat>)
    ensures r.None? <==> forall i :: 0 <= i < |container| ==> container[i].pointType.name != typeName
    ensures r.Some? ==> r.value < |container| && container[r.value].pointType.name == typeName
                        && forall i :: 0 <= i < r.value ==> container[i].pointType.name != typeName
  {
    if |container| == 0 then None
    else if container[0].pointType.name == typeName then Some(0)
    else match FirstNamed(container[1..], typeName)
      case None => None
      case Some(j) => Some(j + 1)
  }

  /** Every instance of a type equal to `t` given the amount by `addTo`, the others as they were. */
  function Applied(container: seq<PointInstance>, t: PointType, amount: int,
                   addTo: (PointInstance, int) -> PointInstance): (r: seq<PointInstance>)
    ensures |r| == |container|
    ensures forall i :: 0 <= i < |r| ==>
              r[i] == if TypeEqual(container[i].pointType, t) then addTo(container[i], amount) else container[i]
  {
    seq(|container|, i requires 0 <= i < |container| =>
      if TypeEqual(container[i].pointType, t) then addTo(container[i], amount) else container[i])
  }

  class PointManager {
    var container: seq<PointInstance>
    var transactions: seq<PointReceipt>

    /** `init()`. */
    constructor ()
      ensures container == [] && transactions == []
    {
      container := [];
      transactions := [];
    }

    /** `subscript(_: PointType)`: the value of the first instance of an equal type, or nil. */
    method ValueOf(incomingType: PointType) returns (r: Option<int>)
      ensures r.None? <==> FirstOfType(container, incomingType).None?
      ensures r.Some? ==> r.value == container[FirstOfType(container, incomingType).value].value
    {
      var i := 0;
      while i < |container|
        invariant 0 <= i <= |container|
        invariant forall k :: 0 <= k < i ==> !TypeEqual(container[k].pointType, incomingType)
      {
        if TypeEqual(container[i].pointType, incomingType) {
          FirstOfTypeAt(container, incomingType, i);
          return Some(container[i].value);
        }
        i := i + 1;
      }
      return None;
    }

    /** `subscript(typeName:)`: the value of the first instance whose type has the name, or nil. */
    method ValueNamed(typeName: string) returns (r: Option<int>)
      ensures r.None? <==> FirstNamed(container, typeName).None?
      ensures r.Some? ==> r.value == container[FirstNamed(container, typeName).value].value
    {
      var i := 0;
      while i < |container|
        invariant 0 <= i <= |container|
        invariant forall k :: 0 <= k < i ==> container[k].pointType.name != typeName
      {
        if container[i].pointType.name == typeName {
          FirstNamedAt(container, typeName, i);
          return Some(container[i].value);
        }
        i := i + 1;
      }
      return None;
    }

    /** `hasType(_:)`: some instance's type is equal. */
    method HasType(t: PointType) returns (b: bool)
      ensures b <==> exists i :: 0 <= i < |container| && TypeEqual(container[i].pointType, t)
    {
      var i := 0;
      while i < |container|
        invariant 0 <= i <= |container|
        invariant forall k :: 0 <= k < i ==> !TypeEqual(container[k].pointType, t)
      {
        if TypeEqual(container[i].pointType, t) {
          return true;
        }
        i := i + 1;
      }
      return false;
    }

    /**
     * `add(type:amount:)`: every instance of an equal type is given the
     * amount, and then a new instance is appended in every case, although the
     * comment says it should be created only for a type not yet held.
     */
    method Add(t: PointType, amount: int, addTo: (PointInstance, int) -> PointInstance)
      modifies this
      ensures container == Applied(old(container), t, amount, addTo) + [PointInstance(t, amount)]
      ensures transactions == old(transactions)
    {
      ghost var target := Applied(container, t, amount, addTo);
      var c := container;
      var i := 0;
      while i < |c|
        invariant 0 <= i <= |c| == |target|
        invariant forall k :: 0 <= k < i ==> c[k] == target[k]
        invariant forall k :: i <= k < |c| ==> c[k] == container[k]
      {
        if TypeEqual(c[i].pointType, t) {
          c := c[i := addTo(c[i], amount)];
        }
        i := i + 1;
      }
      assert c == target;
      container := c + [PointInstance(t, amount)];
    }

    /** `deduct(type:amount:)`: `add(type:amount:)` with the amount negated. */
    method Deduct(t: PointType, amount: int, addTo: (PointInstance, int) -> PointInstance)
      modifies this
      ensures container == Applied(old(container), t, -amount, addTo) + [PointInstance(t, -amount)]
      ensures transactions == old(transactions)
    {
      var minusValue := amount * -1;
      Add(t, minusValue, addTo);
    }

    /** `clear()`: no instances and no receipts. */
    method Clear()
      modifies this
      ensures container == [] && transactions == []
    {
      container := [];
      transactions := [];
    }
  }

  lemma FirstOfTypeAt(container: seq<PointInstance>, t: PointType, j: nat)
    requires j < |container| && TypeEqual(container[j].pointType, t)
    requires forall i :: 0 <= i < j ==> !TypeEqual(container[i].pointType, t)
    ensures FirstOfType(container, t) == Some(j)
  {
    var r := FirstOfType(container, t);
    assert r.Some? && r.value <= j;
  }

  lemma FirstNamedAt(container: seq<PointInstance>, typeName: string, j: nat)
    requires j < |container| && container[j].pointType.name == typeName
    requires forall i :: 0 <= i < j ==> container[i].pointType.name != typeName
    ensures FirstNamed(container, typeName) == Some(j)
  {
    var r := FirstNamed(container, typeName);
    assert r.Some? && r.value <= j;
  }

  // ----- properties -----

  /**
   * `==` on point types is an equivalence, and it looks at the name and the
   * symbol only: the plural name, the instance type and the sign rule play no part.
   */
  lemma TypeEqualIsEquivalence(a: PointType, b: PointType, c: PointType, plural: string, instance: nat, negative: bool)
    ensures TypeEqual(a, a) && TypeEqual(a, a.(pluralisedName := plural, instance := instance, allowNegativeValue := negative))
    ensures TypeEqual(a, b) ==> TypeEqual(b, a)
    ensures TypeEqual(a, b) && TypeEqual(b, c) ==> TypeEqual(a, c)
    ensures TypeEqual(a, b) <==> a.name == b.name && a.symbol == b.symbol
  {
  }

  /** `==` on containers is an equivalence, and containers of different amounts are never equal. */
  lemma ContainerEqualIsEquivalence(a: PointContainer, b: PointContainer, c: PointContainer)
    ensures ContainerEqual(a, a)
    ensures ContainerEqual(a, b) ==> ContainerEqual(b, a)
    ensures ContainerEqual(a, b) && ContainerEqual(b, c) ==> ContainerEqual(a, c)
    ensures a.amount != b.amount ==> !ContainerEqual(a, b)
    ensures ContainerEqual(a, b) ==> TypeEqual(a.pointType, b.pointType)
  {
  }

  /** Equal point types hash alike, as `Hashable` demands. */
  lemma EqualTypesHashAlike(a: PointType, b: PointType, stringHash: string -> bv64)
    requires TypeEqual(a, b)
    ensures TypeHash(a, stringHash) == TypeHash(b, stringHash)
  {
    hide Xor;
  }

  /**
   * The container's amount after a change: never negative when the type
   * disallows it, exactly the sum when it allows it, and the receipt's
   * difference is the change that happened, which is the change asked for
   * unless the amount was raised to 0.
   */
  lemma ChangeAmountEffects(amount: int, change: int, allowNegativeValue: bool)
    ensures !allowNegativeValue ==> ChangedAmount(amount, change, allowNegativeValue) >= 0
    ensures allowNegativeValue ==> ChangedAmount(amount, change, allowNegativeValue) == amount + change
    ensures amount + change >= 0 ==> ChangedAmount(amount, change, allowNegativeValue) - amount == change
    ensures !allowNegativeValue && amount + change < 0 ==> ChangedAmount(amount, change, allowNegativeValue) - amount == -amount
  {
  }

  /** `add(type:amount:)` always grows the container by exactly one, and the type is then held. */
  lemma AddGrowsByOne(container: seq<PointInstance>, t: PointType, amount: int, addTo: (PointInstance, int) -> PointInstance)
    ensures var after := Applied(container, t, amount, addTo) + [PointInstance(t, amount)];
            |after| == |container| + 1 && FirstOfType(after, t).Some?
  {
    var after := Applied(container, t, amount, addTo) + [PointInstance(t, amount)];
    assert TypeEqual(after[|container|].pointType, t);
  }

  /**
   * Adding a type already held leaves two instances of it: the old one,
   * given the amount, is still the one the subscript finds.
   */
  lemma AddKeepsFirstInstance(container: seq<PointInstance>, t: PointType, amount: int, addTo: (PointInstance, int) -> PointInstance)
    requires FirstOfType(container, t).Some?
    requires forall p: PointInstance, a: int :: addTo(p, a).pointType == p.pointType
    ensures var after := Applied(container, t, amount, addTo) + [PointInstance(t, amount)];
            var j := FirstOfType(container, t).value;
            FirstOfType(after, t) == Some(j) && after[j] == addTo(container[j], amount)
  {
    var after := Applied(container, t, amount, addTo) + [PointInstance(t, amount)];
    var j := FirstOfType(container, t).value;
    forall i | 0 <= i < j
      ensures !TypeEqual(after[i].pointType, t)
    {
      assert after[i] == container[i];
    }
    FirstOfTypeAt(after, t, j);
  }

  /** The units' total splits over a concatenation, so a receipt of several units is the sum of their receipts. */
  lemma {:induction false} UnitsTotalJoin(a: seq<PointUnit>, b: seq<PointUnit>)
    ensures UnitsTotal(a + b) == UnitsTotal(a) + UnitsTotal(b)
    decreases |b|
  {
    if b == [] {
      assert a + b == a;
    } else {
      UnitsTotalJoin(a, b[..|b| - 1]);
      assert (a + b)[..|a + b| - 1] == a + b[..|b| - 1];
    }
  }
}
