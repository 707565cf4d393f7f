/**
 * `InventoryStack`: the items of one name and type that a player holds.
 * The stack takes its name, type, description and stackability from the
 * first item and accepts only items that agree on all four, each instance at
 * most once. An unlimited stack never runs out: taking an item from it hands
 * out a clone and leaves the stack as it was.
 *
 * `Stack` is the stack's state as a value. The functions on it say what each
 * operation does, and the class's methods are proved against them.
 */
module InventoryStacks {
  import opened Wrappers
  import opened Dice
  import opened Items
  import ArrayRandom

  datatype Stack = Stack(
    itemName: string,
    itemType: ItemType,
    itemDescription: string,
    itemIsStackable: bool,
    items: seq<Item>,
    isUnlimited: bool)

  /** `compare(_:)`: the item agrees with the stack on name, type, description and stackability. */
  predicate Compare(s: Stack, item: Item)
  {
    item.name == s.itemName && item.itemType == s.itemType
    && item.description == s.itemDescription && item.isStackable == s.itemIsStackable
  }

  /** Every item agrees with the stack, and no instance is held twice. */
  ghost predicate StackValid(s: Stack)
  {
    (forall i :: 0 <= i < |s.items| ==> Compare(s, s.items[i]))
    && (forall i, j :: 0 <= i < j < |s.items| ==> s.items[i] != s.items[j])
  }

  /** `init(item:)`: the item's details, the item alone, and a limited supply. */
  function NewStack(item: Item): (s: Stack)
    ensures s.items == [item] && !s.isUnlimited && Compare(s, item) && StackValid(s)
  {
    Stack(item.name, item.itemType, item.description, item.isStackable, [item], false)
  }

  /** The stack after `add(_:)`: the item is appended if it agrees with the stack and is not already held. */
  function Added(s: Stack, item: Item): Stack
  {
    if Compare(s, item) && item !in s.items then s.(items := s.items + [item]) else s
  }

  /** The position of the first held instance identical to `item`. */
  function IndexOf(items: seq<Item>, item: Item): (r: Option<nat>)
    ensures r.None? <==> item !in items
    ensures r.Some? ==> r.value < |items| && items[r.value] == item && item !in items[..r.value]
  {
    if |items| == 0 then None
    else if items[0] == item then Some(0)
    else match IndexOf(items[1..], item)
      case None => None
      case Some(k) => assert items[..k + 1] == [items[0]] + items[1..][..k]; Some(k + 1)
  }

  /** The stack after `remove(_:)`: the held instance identical to `item`, if any, is gone. */
  function Removed(s: Stack, item: Item): Stack
  {
    match IndexOf(s.items, item)
    case None => s
    case Some(k) => s.(items := ArrayRandom.RemoveAt(s.items, k))
  }

  /** The stack after `removeFirstItem()`: a limited stack loses its first item. */
  function AfterRemoveFirst(s: Stack): Stack
  {
    if !s.isUnlimited && |s.items| > 0 then s.(items := s.items[1..]) else s
  }

  /** The stack after `removeRandomItem()` draws position `index`: a limited stack loses that item. */
  function AfterRemoveRandom(s: Stack, index: nat): Stack
    requires |s.items| > 0 ==> index < |s.items|
  {
    if !s.isUnlimited && |s.items| > 0 then s.(items := ArrayRandom.RemoveAt(s.items, index)) else s
  }

  /** `==`: name, type, description, number of items and `isUnlimited` agree; the items themselves are not compared. */
  predicate StackEqual(a: Stack, b: Stack)
  {
    a.itemName == b.itemName && a.itemType == b.itemType && a.itemDescription == b.itemDescription
    && |a.items| == |b.items| && a.isUnlimited == b.isUnlimited
  }

  /** The item cards `getInlineCards()` gives: the first item's card for a stackable stack, otherwise every item's. */
  function StackCards(s: Stack, cardOf: Item -> Card): (cs: seq<Card>)
    requires s.itemIsStackable ==> |s.items| > 0
    ensures s.itemIsStackable ==> cs == [cardOf(s.items[0])]
    ensures !s.itemIsStackable ==> |cs| == |s.items| && forall i :: 0 <= i < |cs| ==> cs[i] == cardOf(s.items[i])
  {
    if s.itemIsStackable then [cardOf(s.items[0])]
    else seq(|s.items|, i requires 0 <= i < |s.items| => cardOf(s.items[i]))
  }

  /**
   * `getStackInfo()`: for a stackable stack one entry, the first item with
   * the stack's count; otherwise one entry per item, each with count 1. A
   * stackable stack with no items traps on `items[0]`.
   */
  function StackInfo(s: Stack): (info: seq<(Item, nat)>)
    requires s.itemIsStackable ==> |s.items| > 0
    ensures s.itemIsStackable ==> info == [(s.items[0], |s.items|)]
    ensures !s.itemIsStackable ==> |info| == |s.items| && forall i :: 0 <= i < |info| ==> info[i] == (s.items[i], 1)
  {
    if s.itemIsStackable then [(s.items[0], |s.items|)]
    else seq(|s.items|, i requires 0 <= i < |s.items| => (s.items[i], 1))
  }

  /** The counts of some stack information, added up. */
  function InfoTotal(info: seq<(Item, nat)>): nat
  {
    if info == [] then 0 else InfoTotal(info[..|info| - 1]) + info[|info| - 1].1
  }

  // ----- taking items, on values -----

  /**
   * `removeFirstItem()` on a stack value: nil from an empty stack; a clone
   * of the first item from an unlimited one; the first item itself, removed,
   * from a limited one.
   */
  method TakeFirst(s: Stack) returns (r: Option<Item>, t: Stack)
    ensures r.None? <==> |s.items| == 0
    ensures t == AfterRemoveFirst(s)
    ensures r.Some? && s.isUnlimited ==> fresh(r.value) && SameProperties(r.value, s.items[0])
    ensures r.Some? && !s.isUnlimited ==> r.value == s.items[0]
  {
    t := s;
    if s.isUnlimited {
      if |s.items| > 0 {
        var c := s.items[0].Clone();
        r := Some(c);
      } else {
        r := None;
      }
    } else {
      if |s.items| > 0 {
        r := Some(s.items[0]);
        t := s.(items := s.items[1..]);
      } else {
        r := None;
      }
    }
  }

  /**
   * `removeRandomItem()` on a stack value, with the single draw `random32`:
   * nil from an empty stack; a clone of the drawn item from an unlimited one
   * (`cloneRandom()`); the drawn item itself, removed, from a limited one
   * (`popRandom()`).
   */
  method TakeRandom(s: Stack, random32: int -> int) returns (r: Option<Item>, t: Stack)
    requires IsRandom32(random32) && |s.items| <= UInt32Max + 1
    ensures r.None? <==> |s.items| == 0
    ensures |s.items| > 0 ==> random32(|s.items| - 1) < |s.items|
    ensures t == AfterRemoveRandom(s, if |s.items| > 0 then random32(|s.items| - 1) else 0)
    ensures r.Some? && s.isUnlimited ==> fresh(r.value) && SameProperties(r.value, s.items[random32(|s.items| - 1)])
    ensures r.Some? && !s.isUnlimited ==> r.value == s.items[random32(|s.items| - 1)]
  {
    t := s;
    if s.isUnlimited {
      if |s.items| > 0 {
        var c := ArrayRandom.GetRandom(s.items, random32).value.Clone();
        r := Some(c);
      } else {
        r := None;
      }
    } else {
      if |s.items| > 0 {
        var rest, item := ArrayRandom.PopRandom(s.items, random32);
        r := item;
        t := s.(items := rest);
      } else {
        r := None;
      }
    }
  }

  // ----- the stack object -----

  class InventoryStack {
    const itemName: string
    const itemType: ItemType
    const itemDescription: string
    const itemIsStackable: bool
    var items: seq<Item>
    var isUnlimited: bool

    function Value(): Stack
      reads this
    {
      Stack(itemName, itemType, itemDescription, itemIsStackable, items, isUnlimited)
    }

    /** `init(item:)`. */
    constructor (item: Item)
      ensures Value() == NewStack(item)
    {
      itemName := item.name;
      itemType := item.itemType;
      itemDescription := item.description;
      itemIsStackable := item.isStackable;
      items := [item];
      isUnlimited := false;
    }

    /** `isEmpty`. */
    function IsEmpty(): (e: bool)
      reads this
      ensures e <==> |items| == 0
    {
      |items| == 0
    }

    /** `add(_:)`: true exactly when the item is accepted. */
    method Add(incomingItem: Item) returns (ok: bool)
      modifies this
      ensures ok <==> Compare(old(Value()), incomingItem) && incomingItem !in old(items)
      ensures Value() == Added(old(Value()), incomingItem)
    {
      if incomingItem.name != itemName || incomingItem.itemType != itemType
         || incomingItem.description != itemDescription || incomingItem.isStackable != itemIsStackable {
        return false;
      }
      var k := 0;
      while k < |items|
        invariant 0 <= k <= |items|
        invariant incomingItem !in items[..k]
      {
        if items[k] == incomingItem {
          return false;
        }
        k := k + 1;
      }
      assert items[..k] == items;
      items := items + [incomingItem];
      return true;
    }

    /** `cloneStack()`: a clone of every item, in order. */
    method CloneStack() returns (clones: seq<Item>)
      ensures |clones| == |items|
      ensures forall i :: 0 <= i < |items| ==> fresh(clones[i]) && SameProperties(clones[i], items[i])
    {
      clones := CloneAll(items);
    }

    /** `remove(_:)`: the held instance identical to the argument, removed; nil if there is none. */
    method Remove(incomingItem: Item) returns (r: Option<Item>)
      modifies this
      ensures r.None? <==> incomingItem !in old(items)
      ensures r.Some? ==> r.value == incomingItem
      ensures Value() == Removed(old(Value()), incomingItem)
    {
      var i := 0;
      while i < |items|
        invariant 0 <= i <= |items|
        invariant incomingItem !in items[..i]
      {
        if incomingItem == items[i] && IsEqualTo(incomingItem, items[i]) {
          var stackItem := items[i];
          items := ArrayRandom.RemoveAt(items, i);
          return Some(stackItem);
        }
        i := i + 1;
      }
      assert items[..i] == items;
      return None;
    }

    /** `removeFirstItem()`. */
    method RemoveFirstItem() returns (r: Option<Item>)
      modifies this
      ensures r.None? <==> |old(items)| == 0
      ensures Value() == AfterRemoveFirst(old(Value()))
      ensures r.Some? && isUnlimited ==> fresh(r.value) && SameProperties(r.value, items[0])
      ensures r.Some? && !isUnlimited ==> r.value == old(items)[0]
    {
      var t;
      r, t := TakeFirst(Value());
      items := t.items;
    }

    /** `removeRandomItem()`, with the single draw `random32`. */
    method RemoveRandomItem(random32: int -> int) returns (r: Option<Item>)
      requires IsRandom32(random32) && |items| <= UInt32Max + 1
      modifies this
      ensures r.None? <==> |old(items)| == 0
      ensures |old(items)| > 0 ==> random32(|old(items)| - 1) < |old(items)|
      ensures Value() == AfterRemoveRandom(old(Value()), if |old(items)| > 0 then random32(|old(items)| - 1) else 0)
      ensures r.Some? && isUnlimited ==> fresh(r.value) && SameProperties(r.value, items[random32(|items| - 1)])
      ensures r.Some? && !isUnlimited ==> r.value == old(items)[random32(|old(items)| - 1)]
    {
      var t;
      r, t := TakeRandom(Value(), random32);
      items := t.items;
    }
  }

  /** `==` on two stack objects. */
  predicate Equal(a: InventoryStack, b: InventoryStack)
    reads a, b
  {
    StackEqual(a.Value(), b.Value())
  }

  // ----- properties -----

  /** A stack that `add` has accepted an item into still holds only agreeing, distinct instances, and has grown by one; a refused item changes nothing. */
  lemma AddKeepsValid(s: Stack, item: Item)
    requires StackValid(s)
    ensures StackValid(Added(s, item))
    ensures Compare(s, item) && item !in s.items ==> |Added(s, item).items| == |s.items| + 1 && Added(s, item).items[|s.items|] == item
    ensures !(Compare(s, item) && item !in s.items) ==> Added(s, item) == s
    ensures Added(s, item).isUnlimited == s.isUnlimited && StackEqual(Added(s, item), s) == (Added(s, item) == s)
  {
  }

  /** An item held by a valid stack agrees with it, so a stack refuses an item exactly when it disagrees or is held already. */
  lemma CompareHeld(s: Stack, item: Item)
    requires StackValid(s) && item in s.items
    ensures Compare(s, item) && Added(s, item) == s
  {
  }

  /** Removing an item keeps the stack valid and takes away just that instance. */
  lemma RemoveKeepsValid(s: Stack, item: Item)
    requires StackValid(s)
    ensures StackValid(Removed(s, item))
    ensures item !in Removed(s, item).items
    ensures item in s.items ==> (|Removed(s, item).items| == |s.items| - 1
      && multiset(Removed(s, item).items) + multiset{item} == multiset(s.items))
    ensures item !in s.items ==> Removed(s, item) == s
  {
    match IndexOf(s.items, item)
    case None =>
    case Some(k) => RemoveAtDistinct(s, k);
  }

  /** Removing the item at `k` from a valid stack leaves a valid stack that no longer holds that instance. */
  lemma RemoveAtDistinct(s: Stack, k: nat)
    requires StackValid(s) && k < |s.items|
    ensures StackValid(s.(items := ArrayRandom.RemoveAt(s.items, k)))
    ensures s.items[k] !in ArrayRandom.RemoveAt(s.items, k)
  {
    var t := ArrayRandom.RemoveAt(s.items, k);
    forall i, j | 0 <= i < j < |t|
      ensures t[i] != t[j]
    {
      var i' := if i < k then i else i + 1;
      var j' := if j < k then j else j + 1;
      assert t[i] == s.items[i'] && t[j] == s.items[j'] && i' < j';
    }
    forall i | 0 <= i < |t|
      ensures t[i] != s.items[k]
    {
      var i' := if i < k then i else i + 1;
      assert t[i] == s.items[i'] && i' != k;
    }
  }

  /**
   * Taking the first item: an unlimited stack keeps its count, a limited one
   * loses one, an empty one is left alone; the stack stays valid and its
   * details and `isUnlimited` never change.
   */
  lemma RemoveFirstCount(s: Stack)
    requires StackValid(s)
    ensures StackValid(AfterRemoveFirst(s))
    ensures s.isUnlimited || |s.items| == 0 ==> AfterRemoveFirst(s) == s
    ensures !s.isUnlimited && |s.items| > 0 ==> |AfterRemoveFirst(s).items| == |s.items| - 1
    ensures AfterRemoveFirst(s).isUnlimited == s.isUnlimited && AfterRemoveFirst(s).itemName == s.itemName
  {
    if !s.isUnlimited && |s.items| > 0 {
      var t := s.items[1..];
      assert forall i :: 0 <= i < |t| ==> t[i] == s.items[i + 1];
    }
  }

  /** Taking a random item follows the same count rules as taking the first. */
  lemma RemoveRandomCount(s: Stack, index: nat)
    requires StackValid(s) && (|s.items| > 0 ==> index < |s.items|)
    ensures StackValid(AfterRemoveRandom(s, index))
    ensures s.isUnlimited || |s.items| == 0 ==> AfterRemoveRandom(s, index) == s
    ensures !s.isUnlimited && |s.items| > 0 ==> (|AfterRemoveRandom(s, index).items| == |s.items| - 1
      && multiset(AfterRemoveRandom(s, index).items) + multiset{s.items[index]} == multiset(s.items))
    ensures AfterRemoveRandom(s, index).isUnlimited == s.isUnlimited && AfterRemoveRandom(s, index).itemName == s.itemName
  {
    if !s.isUnlimited && |s.items| > 0 {
      RemoveAtDistinct(s, index);
    }
  }

  /** The counts of a stack's information add up to the stack's count, and every entry names a held item. */
  lemma StackInfoTotal(s: Stack)
    requires s.itemIsStackable ==> |s.items| > 0
    ensures InfoTotal(StackInfo(s)) == |s.items|
    ensures forall i :: 0 <= i < |StackInfo(s)| ==> StackInfo(s)[i].0 in s.items
  {
    if !s.itemIsStackable {
      OnesTotal(StackInfo(s), s.items);
    } else {
      assert StackInfo(s)[..0] == [];
    }
  }

  lemma {:induction false} OnesTotal(info: seq<(Item, nat)>, items: seq<Item>)
    requires |info| == |items| && forall i :: 0 <= i < |info| ==> info[i] == (items[i], 1)
    ensures InfoTotal(info) == |items|
    decreases |info|
  {
    if info != [] {
      OnesTotal(info[..|info| - 1], items[..|items| - 1]);
    }
  }

  /** `==` is reflexive, symmetric and transitive, and ignores which items are held. */
  lemma StackEqualIsEquivalence(a: Stack, b: Stack, c: Stack)
    ensures StackEqual(a, a)
    ensures StackEqual(a, b) ==> StackEqual(b, a)
    ensures StackEqual(a, b) && StackEqual(b, c) ==> StackEqual(a, c)
    ensures StackEqual(a, a.(items := b.items)) <==> |a.items| == |b.items|
  {
  }
}
