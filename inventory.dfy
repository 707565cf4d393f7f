/**
 * `Inventory`: a player's items, kept per item type as a list of stacks, at
 * most one stack per item name within a type.
 *
 * The table of stacks is held as values (`InventoryStacks.Stack`): where the
 * inventory changes a stack object in place, the model writes the changed
 * stack back into the table.
 */
module Inventories {
  import opened Wrappers
  import opened Items
  import opened InventoryStacks
  import ArrayRandom

  type Table = map<ItemType, seq<Stack>>

  /** The stacks of one type: each valid, non-empty and of that type, with distinct item names. */
  ghost predicate StacksValid(t: ItemType, ss: seq<Stack>)
  {
    (forall i :: 0 <= i < |ss| ==> StackValid(ss[i]) && ss[i].itemType == t && |ss[i].items| > 0)
    && (forall i, j :: 0 <= i < j < |ss| ==> ss[i].itemName != ss[j].itemName)
  }

  /** What every operation of the inventory keeps. */
  ghost predicate TableValid(m: Table)
  {
    forall t :: t in m ==> StacksValid(t, m[t])
  }

  /** The table after `addItemType(_:)`: an empty list for a type that is not there yet. */
  function WithType(m: Table, t: ItemType): Table
  {
    if t in m then m else m[t := []]
  }

  /** The position of the first stack holding items named `name`. */
  function FindName(ss: seq<Stack>, name: string): (r: Option<nat>)
    ensures r.None? <==> forall i :: 0 <= i < |ss| ==> ss[i].itemName != name
    ensures r.Some? ==> r.value < |ss| && ss[r.value].itemName == name
                        && forall i :: 0 <= i < r.value ==> ss[i].itemName != name
  {
    if |ss| == 0 then None
    else if ss[0].itemName == name then Some(0)
    else match FindName(ss[1..], name)
      case None => None
      case Some(k) => Some(k + 1)
  }

  /** The table after one item of `addItems(_:)`: into the stack of its name under its type, or a new stack at the end. */
  function AddOne(m: Table, item: Item): Table
  {
    var m' := WithType(m, item.itemType);
    var ss := m'[item.itemType];
    match FindName(ss, item.name)
    case Some(j) => m'[item.itemType := ss[j := Added(ss[j], item)]]
    case None => m'[item.itemType := ss + [NewStack(item)]]
  }

  /** The table after `addItems(_:)`: the items added one after another. */
  function AddAll(m: Table, incoming: seq<Item>): Table
    decreases |incoming|
  {
    if incoming == [] then m else AddOne(AddAll(m, incoming[..|incoming| - 1]), incoming[|incoming| - 1])
  }

  lemma AddAllStart(m: Table, incoming: seq<Item>)
    ensures AddAll(m, incoming[..0]) == m
  {
    assert incoming[..0] == [];
  }

  lemma AddAllStep(m: Table, incoming: seq<Item>, n: nat)
    requires n < |incoming|
    ensures AddAll(m, incoming[..n + 1]) == AddOne(AddAll(m, incoming[..n]), incoming[n])
  {
    assert incoming[..n + 1][..n] == incoming[..n];
  }

  /** The table after `modifyStack(ofItem:useUnlimitedStack:)`. */
  function SetUnlimited(m: Table, item: Item, useUnlimitedStack: bool): Table
  {
    var m' := WithType(m, item.itemType);
    var ss := m'[item.itemType];
    m'[item.itemType := seq(|ss|, i requires 0 <= i < |ss| =>
                              if ss[i].itemName == item.name then ss[i].(isUnlimited := useUnlimitedStack) else ss[i])]
  }

  /** `hasItem(_:)`: the item's type is there and one of its stacks has the item's name. */
  predicate Has(m: Table, item: Item)
  {
    item.itemType in m && FindName(m[item.itemType], item.name).Some?
  }

  /** The stacks `cloneItems(forType:)` copies: those with at least one item, in order. */
  function Occupied(ss: seq<Stack>): (os: seq<Stack>)
    ensures |os| <= |ss|
    ensures forall i :: 0 <= i < |os| ==> os[i] in ss && |os[i].items| > 0
  {
    if ss == [] then []
    else Occupied(ss[..|ss| - 1]) + (if |ss[|ss| - 1].items| > 0 then [ss[|ss| - 1]] else [])
  }

  /** The stacks of type `key` after `removeItem` takes one item from the stack named `name`; an emptied stack is dropped. */
  function AfterTake(m: Table, key: ItemType, name: string): Table
    requires key in m
  {
    var ss := m[key];
    match FindName(ss, name)
    case None => m
    case Some(j) =>
      var s := AfterRemoveFirst(ss[j]);
      m[key := if |s.items| == 0 then ArrayRandom.RemoveAt(ss, j) else ss[j := s]]
  }

  /** A stack that `removeAllItems(forType:includeUnlimitedStack:)` leaves in place. */
  predicate Kept(s: Stack, includeUnlimitedStack: bool)
  {
    s.isUnlimited && !includeUnlimitedStack
  }

  /** The stacks left after `removeAllItems`. */
  function KeptStacks(ss: seq<Stack>, includeUnlimitedStack: bool): (ks: seq<Stack>)
    ensures |ks| <= |ss|
    ensures forall i :: 0 <= i < |ks| ==> Kept(ks[i], includeUnlimitedStack)
  {
    if ss == [] then []
    else KeptStacks(ss[..|ss| - 1], includeUnlimitedStack)
         + (if Kept(ss[|ss| - 1], includeUnlimitedStack) then [ss[|ss| - 1]] else [])
  }

  /** The items of the stacks `removeAllItems` takes away, in order. */
  function DroppedItems(ss: seq<Stack>, includeUnlimitedStack: bool): seq<Item>
  {
    if ss == [] then []
    else DroppedItems(ss[..|ss| - 1], includeUnlimitedStack)
         + (if Kept(ss[|ss| - 1], includeUnlimitedStack) then [] else ss[|ss| - 1].items)
  }

  /** Swift's `index(of:)` on a list of stacks: the first one `==` to `s`. */
  function FirstEqual(ss: seq<Stack>, s: Stack): (r: Option<nat>)
    ensures r.None? <==> forall i :: 0 <= i < |ss| ==> !StackEqual(ss[i], s)
    ensures r.Some? ==> r.value < |ss| && StackEqual(ss[r.value], s)
                        && forall i :: 0 <= i < r.value ==> !StackEqual(ss[i], s)
  {
    if |ss| == 0 then None
    else if StackEqual(ss[0], s) then Some(0)
    else match FirstEqual(ss[1..], s)
      case None => None
      case Some(k) => Some(k + 1)
  }

  class Inventory {
    var items: Table
    var itemTransactions: seq<string>

    ghost predicate Valid()
      reads this
    {
      TableValid(items)
    }

    /** `init()`: no items, no transactions. */
    constructor ()
      ensures items == map[] && itemTransactions == [] && Valid()
    {
      items := map[];
      itemTransactions := [];
    }

    /** `addItemType(_:)`. */
    method AddItemType(t: ItemType)
      modifies this
      ensures items == WithType(old(items), t) && itemTransactions == old(itemTransactions)
      ensures old(Valid()) ==> Valid()
    {
      AddItemTypeIdempotent(items, t);
      if t !in items {
        items := items[t := []];
      }
    }

    /** `addItems(_:)`. */
    method AddItems(incomingItems: seq<Item>)
      modifies this
      ensures items == AddAll(old(items), incomingItems) && itemTransactions == old(itemTransactions)
      ensures old(Valid()) ==> Valid()
    {
      hide AddAll, TableValid;
      AddAllStart(items, incomingItems);
      var n := 0;
      while n < |incomingItems|
        invariant 0 <= n <= |incomingItems|
        invariant items == AddAll(old(items), incomingItems[..n])
        invariant itemTransactions == old(itemTransactions)
      {
        var item := incomingItems[n];
        ghost var before := items;
        if item.itemType !in items {
          items := items[item.itemType := []];
        }
        var stacks := items[item.itemType];
        var itemAdded := false;
        var j := 0;
        while j < |stacks|
          invariant 0 <= j <= |stacks| && stacks == items[item.itemType] && !itemAdded
          invariant items == WithType(before, item.itemType)
          invariant forall i :: 0 <= i < j ==> stacks[i].itemName != item.name
        {
          if stacks[j].itemName == item.name {
            stacks := stacks[j := Added(stacks[j], item)];
            items := items[item.itemType := stacks];
            itemAdded := true;
            break;
          }
          j := j + 1;
        }
        if !itemAdded {
          stacks := stacks + [NewStack(item)];
          items := items[item.itemType := stacks];
        }
        assert items == AddOne(before, item);
        AddAllStep(old(items), incomingItems, n);
        n := n + 1;
      }
      assert incomingItems[..n] == incomingItems;
      if old(Valid()) {
        AddAllValid(old(items), incomingItems);
      }
    }

    /** `modifyStack(ofItem:useUnlimitedStack:)`. */
    method ModifyStack(item: Item, useUnlimitedStack: bool)
      modifies this
      ensures items == SetUnlimited(old(items), item, useUnlimitedStack) && itemTransactions == old(itemTransactions)
      ensures old(Valid()) ==> Valid()
    {
      if Valid() {
        SetUnlimitedValid(items, item, useUnlimitedStack);
      }
      if item.itemType !in items {
        items := items[item.itemType := []];
      }
      assert items == WithType(old(items), item.itemType);
      var stacks := items[item.itemType];
      var updated: seq<Stack> := [];
      var i := 0;
      while i < |stacks|
        invariant 0 <= i <= |stacks| && |updated| == i
        invariant forall k :: 0 <= k < i ==>
                    updated[k] == if stacks[k].itemName == item.name then stacks[k].(isUnlimited := useUnlimitedStack) else stacks[k]
      {
        var stack := stacks[i];
        if stack.itemName == item.name {
          stack := stack.(isUnlimited := useUnlimitedStack);
        }
        updated := updated + [stack];
        i := i + 1;
      }
      assert updated == SetUnlimited(old(items), item, useUnlimitedStack)[item.itemType];
      items := items[item.itemType := updated];
    }

    /** `hasItem(_:)`. */
    method HasItem(item: Item) returns (b: bool)
      ensures b == Has(items, item)
    {
      if item.itemType !in items {
        return false;
      }
      var stacks := items[item.itemType];
      var i := 0;
      while i < |stacks|
        invariant 0 <= i <= |stacks|
        invariant forall k :: 0 <= k < i ==> stacks[k].itemName != item.name
      {
        if stacks[i].itemName == item.name {
          return true;
        }
        i := i + 1;
      }
      return false;
    }

    /** `cloneItems(forType:)`: nil for a missing type; otherwise a clone of every occupied stack, in order. */
    method CloneItems(t: ItemType) returns (r: Option<seq<seq<Item>>>)
      ensures r.None? <==> t !in items
      ensures r.Some? ==> var os := Occupied(items[t]);
                          |r.value| == |os|
                          && forall i :: 0 <= i < |os| ==>
                               ClonesOf(r.value[i], os[i].items) && forall k :: 0 <= k < |r.value[i]| ==> fresh(r.value[i][k])
    {
      if t !in items {
        return None;
      }
      var stacks := items[t];
      var result: seq<seq<Item>> := [];
      var i := 0;
      while i < |stacks|
        invariant 0 <= i <= |stacks|
        invariant |result| == |Occupied(stacks[..i])|
        invariant forall p :: 0 <= p < |result| ==>
                    ClonesOf(result[p], Occupied(stacks[..i])[p].items) && forall k :: 0 <= k < |result[p]| ==> fresh(result[p][k])
      {
        assert stacks[..i + 1][..i] == stacks[..i];
        if |stacks[i].items| != 0 {
          var clones := CloneAll(stacks[i].items);
          result := result + [clones];
        }
        i := i + 1;
      }
      assert stacks[..i] == stacks;
      return Some(result);
    }

    /**
     * `removeItem(type:name:)`: the type is looked up by its name (which of
     * several types of the same name is unspecified, so `key` says which one
     * was taken); nil if there is none, or it has no stack of that name.
     * Otherwise one item is taken from that stack as `removeFirstItem()`
     * does, and the stack is dropped if that emptied it.
     */
    method RemoveItem(typeName: string, name: string) returns (r: Option<Item>, ghost key: Option<ItemType>)
      modifies this
      ensures key.None? <==> forall t :: t in old(items) ==> t.name != typeName
      ensures key.None? ==> r.None? && items == old(items)
      ensures key.Some? ==> key.value in old(items) && key.value.name == typeName
      ensures key.Some? ==> items == AfterTake(old(items), key.value, name)
      ensures key.Some? ==> var ss := old(items)[key.value];
                            match FindName(ss, name)
                            case None => r.None?
                            case Some(j) =>
                              ((r.None? <==> |ss[j].items| == 0)
                               && (r.Some? && ss[j].isUnlimited ==> fresh(r.value) && SameProperties(r.value, ss[j].items[0]))
                               && (r.Some? && !ss[j].isUnlimited ==> r.value == ss[j].items[0]))
      ensures itemTransactions == old(itemTransactions)
      ensures old(Valid()) ==> Valid()
    {
      hide TableValid;
      if forall t :: t in items ==> t.name != typeName {
        return None, None;
      }
      var k :| k in items && k.name == typeName;
      key := Some(k);
      if Valid() {
        TakeValid(items, k, name);
      }
      var stacks := items[k];
      var i := 0;
      while i < |stacks|
        invariant 0 <= i <= |stacks| && items == old(items)
        invariant forall p :: 0 <= p < i ==> stacks[p].itemName != name
      {
        var stack := stacks[i];
        if stack.itemName == name {
          var retrievedItem, after := TakeFirst(stack);
          if |after.items| == 0 {
            stacks := ArrayRandom.RemoveAt(stacks, i);
          } else {
            stacks := stacks[i := after];
          }
          items := items[k := stacks];
          return retrievedItem, key;
        }
        i := i + 1;
      }
      return None, key;
    }

    /**
     * `removeAllItems(forType:includeUnlimitedStack:)`: nil for a missing
     * type; otherwise clones of the items of every stack taken away, in
     * order, and only the unlimited stacks are left when
     * `includeUnlimitedStack` is false, none when it is true.
     */
    method RemoveAllItems(t: ItemType, includeUnlimitedStack: bool) returns (r: Option<seq<Item>>)
      modifies this
      ensures r.None? <==> t !in old(items)
      ensures r.None? ==> items == old(items)
      ensures r.Some? ==> items == old(items)[t := KeptStacks(old(items)[t], includeUnlimitedStack)]
      ensures r.Some? ==> ClonesOf(r.value, DroppedItems(old(items)[t], includeUnlimitedStack))
      ensures r.Some? ==> forall i :: 0 <= i < |r.value| ==> fresh(r.value[i])
      ensures itemTransactions == old(itemTransactions)
      ensures old(Valid()) ==> Valid()
    {
      if t !in items {
        return None;
      }
      if Valid() {
        KeptValid(t, items[t], includeUnlimitedStack);
      }
      var inventorySet, results := RemoveStacks(items[t], includeUnlimitedStack);
      items := items[t := inventorySet];
      return Some(results);
    }

    /** `clearAll()`. */
    method ClearAll()
      modifies this
      ensures items == map[] && itemTransactions == [] && Valid()
    {
      items := map[];
      itemTransactions := [];
    }
  }

  /**
   * While `removeAllItems` walks the stacks, the ones it has kept come
   * before the current one, and none of them is `==` to it, so `index(of:)`
   * finds the current stack itself.
   */
  lemma FindsCurrent(kept: seq<Stack>, rest: seq<Stack>, includeUnlimitedStack: bool)
    requires |rest| > 0 && !Kept(rest[0], includeUnlimitedStack)
    requires forall i :: 0 <= i < |kept| ==> Kept(kept[i], includeUnlimitedStack)
    ensures FirstEqual(kept + rest, rest[0]) == Some(|kept|)
  {
    var ss := kept + rest;
    assert ss[|kept|] == rest[0];
    forall i | 0 <= i < |kept|
      ensures !StackEqual(ss[i], rest[0])
    {
      assert ss[i] == kept[i];
    }
  }

  /** The loop of `removeAllItems` over the stacks of the type. */
  method RemoveStacks(stacks: seq<Stack>, includeUnlimitedStack: bool) returns (inventorySet: seq<Stack>, results: seq<Item>)
    ensures inventorySet == KeptStacks(stacks, includeUnlimitedStack)
    ensures ClonesOf(results, DroppedItems(stacks, includeUnlimitedStack))
    ensures forall p :: 0 <= p < |results| ==> fresh(results[p])
  {
    hide *;
    results := [];
    inventorySet := stacks;
    var i := 0;
    WalkStart(stacks, includeUnlimitedStack);
    while i < |stacks|
      invariant 0 <= i <= |stacks|
      invariant Walked(stacks, i, includeUnlimitedStack, inventorySet, results)
      invariant forall p :: 0 <= p < |results| ==> fresh(results[p])
    {
      var stack := stacks[i];
      if stack.isUnlimited && !includeUnlimitedStack {
        WalkKeep(stacks, i, includeUnlimitedStack, inventorySet, results);
      } else {
        inventorySet, results := DropStack(stacks, i, includeUnlimitedStack, inventorySet, results);
      }
      i := i + 1;
    }
    WalkStop(stacks, includeUnlimitedStack, inventorySet, results);
  }

  /** The body of that loop for a stack that goes: its items are cloned onto the results and it is taken out of the list. */
  method DropStack(stacks: seq<Stack>, i: nat, includeUnlimitedStack: bool, inventorySet: seq<Stack>, results: seq<Item>)
    returns (inventorySet': seq<Stack>, results': seq<Item>)
    requires Walked(stacks, i, includeUnlimitedStack, inventorySet, results)
    requires i < |stacks| && !(stacks[i].isUnlimited && !includeUnlimitedStack)
    ensures Walked(stacks, i + 1, includeUnlimitedStack, inventorySet', results')
    ensures |results| <= |results'| && forall p :: 0 <= p < |results'| ==> (p < |results| ==> results'[p] == results[p]) && (p >= |results| ==> fresh(results'[p]))
  {
    hide Walked, FirstEqual, ArrayRandom.RemoveAt, ClonesOf;
    var stack := stacks[i];
    var clones := CloneAll(stack.items);
    WalkDrop(stacks, i, includeUnlimitedStack, inventorySet, results, clones);
    results' := results + clones;
    var index := FirstEqual(inventorySet, stack);
    inventorySet' := ArrayRandom.RemoveAt(inventorySet, index.value);
  }

  /**
   * Half-way through `removeAllItems`: of the first `i` stacks, the kept
   * ones are still in the list before the unvisited ones, and `results`
   * holds clones of the items of the others.
   */
  ghost predicate Walked(ss: seq<Stack>, i: nat, includeUnlimitedStack: bool, inventorySet: seq<Stack>, results: seq<Item>)
  {
    i <= |ss|
    && inventorySet == KeptStacks(ss[..i], includeUnlimitedStack) + ss[i..]
    && ClonesOf(results, DroppedItems(ss[..i], includeUnlimitedStack))
  }

  lemma WalkStart(ss: seq<Stack>, includeUnlimitedStack: bool)
    ensures Walked(ss, 0, includeUnlimitedStack, ss, [])
  {
    assert ss[..0] == [] && ss[0..] == ss;
  }

  lemma WalkKeep(ss: seq<Stack>, i: nat, includeUnlimitedStack: bool, inventorySet: seq<Stack>, results: seq<Item>)
    requires Walked(ss, i, includeUnlimitedStack, inventorySet, results) && i < |ss| && ss[i].isUnlimited && !includeUnlimitedStack
    ensures Walked(ss, i + 1, includeUnlimitedStack, inventorySet, results)
  {
    RemoveAllStep(ss, i, includeUnlimitedStack);
  }

  lemma WalkDrop(ss: seq<Stack>, i: nat, includeUnlimitedStack: bool, inventorySet: seq<Stack>, results: seq<Item>, clones: seq<Item>)
    requires Walked(ss, i, includeUnlimitedStack, inventorySet, results) && i < |ss| && !Kept(ss[i], includeUnlimitedStack)
    requires ClonesOf(clones, ss[i].items)
    ensures FirstEqual(inventorySet, ss[i]).Some?
    ensures Walked(ss, i + 1, includeUnlimitedStack,
                   ArrayRandom.RemoveAt(inventorySet, FirstEqual(inventorySet, ss[i]).value), results + clones)
  {
    RemoveAllStep(ss, i, includeUnlimitedStack);
    ClonesAppend(results, DroppedItems(ss[..i], includeUnlimitedStack), clones, ss[i].items);
  }

  lemma WalkStop(ss: seq<Stack>, includeUnlimitedStack: bool, inventorySet: seq<Stack>, results: seq<Item>)
    requires Walked(ss, |ss|, includeUnlimitedStack, inventorySet, results)
    ensures inventorySet == KeptStacks(ss, includeUnlimitedStack)
    ensures ClonesOf(results, DroppedItems(ss, includeUnlimitedStack))
  {
    assert ss[..|ss|] == ss && ss[|ss|..] == [];
  }

  /**
   * One more stack walked by `removeAllItems`: a stack that stays moves from
   * the unvisited part to the kept part; one that goes is the stack
   * `index(of:)` finds, right after the kept ones, and its items join the
   * dropped ones.
   */
  lemma RemoveAllStep(ss: seq<Stack>, i: nat, includeUnlimitedStack: bool)
    requires i < |ss|
    ensures var kept := KeptStacks(ss[..i], includeUnlimitedStack);
            Kept(ss[i], includeUnlimitedStack) ==>
              KeptStacks(ss[..i + 1], includeUnlimitedStack) + ss[i + 1..] == kept + ss[i..]
              && DroppedItems(ss[..i + 1], includeUnlimitedStack) == DroppedItems(ss[..i], includeUnlimitedStack)
    ensures var kept := KeptStacks(ss[..i], includeUnlimitedStack);
            !Kept(ss[i], includeUnlimitedStack) ==>
              FirstEqual(kept + ss[i..], ss[i]) == Some(|kept|)
              && ArrayRandom.RemoveAt(kept + ss[i..], |kept|) == KeptStacks(ss[..i + 1], includeUnlimitedStack) + ss[i + 1..]
              && DroppedItems(ss[..i + 1], includeUnlimitedStack) == DroppedItems(ss[..i], includeUnlimitedStack) + ss[i].items
  {
    assert ss[..i + 1][..i] == ss[..i];
    var kept := KeptStacks(ss[..i], includeUnlimitedStack);
    assert ss[i..] == [ss[i]] + ss[i + 1..];
    if !Kept(ss[i], includeUnlimitedStack) {
      FindsCurrent(kept, ss[i..], includeUnlimitedStack);
      RemoveAtJoin(kept, ss[i..]);
    }
  }

  /** Removing the first stack after `kept`. */
  lemma RemoveAtJoin(kept: seq<Stack>, rest: seq<Stack>)
    requires |rest| > 0
    ensures ArrayRandom.RemoveAt(kept + rest, |kept|) == kept + rest[1..]
  {
  }

  // ----- properties -----

  /** `addItemType` is idempotent and never changes the stacks of a type already there. */
  lemma AddItemTypeIdempotent(m: Table, t: ItemType)
    ensures WithType(WithType(m, t), t) == WithType(m, t)
    ensures t in WithType(m, t) && (t in m ==> WithType(m, t) == m)
    ensures forall u :: u in m ==> u in WithType(m, t) && WithType(m, t)[u] == m[u]
    ensures TableValid(m) ==> TableValid(WithType(m, t))
  {
  }

  /** Adding one item keeps the inventory valid, and the item's name is then held under its type. */
  lemma AddOneValid(m: Table, item: Item)
    requires TableValid(m)
    ensures TableValid(AddOne(m, item))
    ensures Has(AddOne(m, item), item)
    ensures forall t :: t in m ==> t in AddOne(m, item)
    ensures forall t :: t in m && t != item.itemType ==> AddOne(m, item)[t] == m[t]
  {
    var m' := WithType(m, item.itemType);
    var ss := m'[item.itemType];
    assert StacksValid(item.itemType, ss);
    match FindName(ss, item.name)
    case Some(j) =>
      AddKeepsValid(ss[j], item);
      var ss' := ss[j := Added(ss[j], item)];
      assert StacksValid(item.itemType, ss') by {
        forall i | 0 <= i < |ss'|
          ensures StackValid(ss'[i]) && ss'[i].itemType == item.itemType && |ss'[i].items| > 0
        {
        }
      }
      assert ss'[j].itemName == item.name;
    case None =>
      var ss' := ss + [NewStack(item)];
      assert StacksValid(item.itemType, ss');
      assert ss'[|ss|].itemName == item.name;
  }

  /** Adding any items keeps the inventory valid, holds each of their names under its type and loses no type. */
  lemma {:induction false} AddAllValid(m: Table, incoming: seq<Item>)
    requires TableValid(m)
    ensures TableValid(AddAll(m, incoming))
    ensures forall t :: t in m ==> t in AddAll(m, incoming)
    ensures forall i :: 0 <= i < |incoming| ==> Has(AddAll(m, incoming), incoming[i])
    decreases |incoming|
  {
    hide TableValid, Has, AddOne;
    if incoming != [] {
      var front := incoming[..|incoming| - 1];
      var last := incoming[|incoming| - 1];
      AddAllValid(m, front);
      var mid := AddAll(m, front);
      AddOneValid(mid, last);
      forall i | 0 <= i < |incoming|
        ensures Has(AddAll(m, incoming), incoming[i])
      {
        if i < |incoming| - 1 {
          assert incoming[i] == front[i];
          AddOneKeepsHas(mid, last, incoming[i]);
        }
      }
    }
  }

  /** Adding an item never loses a name the inventory held. */
  lemma AddOneKeepsHas(m: Table, item: Item, other: Item)
    requires Has(m, other)
    ensures Has(AddOne(m, item), other)
  {
    var m' := WithType(m, item.itemType);
    var ss := m'[item.itemType];
    var j := FindName(m[other.itemType], other.name).value;
    if other.itemType == item.itemType {
      match FindName(ss, item.name)
      case Some(p) =>
        var ss' := ss[p := Added(ss[p], item)];
        assert ss'[j].itemName == other.name;
      case None =>
        var ss' := ss + [NewStack(item)];
        assert ss'[j].itemName == other.name;
    }
  }

  /** `hasItem` after `modifyStack`: changing whether a stack is unlimited changes no stack's name, and keeps the inventory valid. */
  lemma SetUnlimitedValid(m: Table, item: Item, u: bool)
    requires TableValid(m)
    ensures TableValid(SetUnlimited(m, item, u))
    ensures forall other: Item :: Has(m, other) ==> Has(SetUnlimited(m, item, u), other)
    ensures var ss := SetUnlimited(m, item, u)[item.itemType];
            forall i :: 0 <= i < |ss| && ss[i].itemName == item.name ==> ss[i].isUnlimited == u
  {
    var m' := WithType(m, item.itemType);
    var ss := m'[item.itemType];
    var ss' := SetUnlimited(m, item, u)[item.itemType];
    assert |ss'| == |ss| && forall i :: 0 <= i < |ss| ==> ss'[i].itemName == ss[i].itemName;
    forall other: Item | Has(m, other)
      ensures Has(SetUnlimited(m, item, u), other)
    {
      var j := FindName(m[other.itemType], other.name).value;
      if other.itemType == item.itemType {
        assert ss'[j].itemName == other.name;
      }
    }
  }

  /** What one stack adds to `getItemCount`: its count if it is limited, nothing if it is unlimited. */
  function Contribution(s: Stack): nat
  {
    if s.isUnlimited then 0 else |s.items|
  }

  /** `getItemCount` over a list of stacks. */
  function LimitedCount(ss: seq<Stack>): nat
  {
    if ss == [] then 0 else LimitedCount(ss[..|ss| - 1]) + Contribution(ss[|ss| - 1])
  }

  lemma {:induction false} LimitedCountJoin(a: seq<Stack>, b: seq<Stack>)
    ensures LimitedCount(a + b) == LimitedCount(a) + LimitedCount(b)
    decreases |b|
  {
    if b == [] {
      assert a + b == a;
    } else {
      LimitedCountJoin(a, b[..|b| - 1]);
      assert (a + b)[..|a + b| - 1] == a + b[..|b| - 1];
    }
  }

  /** Replacing or removing stack `j` changes the count by that stack's contribution. */
  lemma LimitedCountUpdate(ss: seq<Stack>, j: nat, s: Stack)
    requires j < |ss|
    ensures LimitedCount(ss[j := s]) + Contribution(ss[j]) == LimitedCount(ss) + Contribution(s)
    ensures LimitedCount(ArrayRandom.RemoveAt(ss, j)) + Contribution(ss[j]) == LimitedCount(ss)
  {
    var front, back := ss[..j], ss[j + 1..];
    assert ss == front + [ss[j]] + back;
    assert ss[j := s] == front + [s] + back;
    assert ArrayRandom.RemoveAt(ss, j) == front + back;
    LimitedCountJoin(front + [ss[j]], back);
    LimitedCountJoin(front, [ss[j]]);
    LimitedCountJoin(front + [s], back);
    LimitedCountJoin(front, [s]);
    LimitedCountJoin(front, back);
    assert LimitedCount([ss[j]]) == Contribution(ss[j]) by { assert [ss[j]][..0] == []; }
    assert LimitedCount([s]) == Contribution(s) by { assert [s][..0] == []; }
  }

  /** Dropping stack `j` keeps a list valid. */
  lemma RemoveStackValid(t: ItemType, ss: seq<Stack>, j: nat)
    requires StacksValid(t, ss) && j < |ss|
    ensures StacksValid(t, ArrayRandom.RemoveAt(ss, j))
  {
    var ss' := ArrayRandom.RemoveAt(ss, j);
    forall p, q | 0 <= p < q < |ss'|
      ensures ss'[p].itemName != ss'[q].itemName
    {
      var p' := if p < j then p else p + 1;
      var q' := if q < j then q else q + 1;
      assert ss'[p] == ss[p'] && ss'[q] == ss[q'] && p' < q';
    }
  }

  /** Putting a valid, non-empty stack of the same name and type in place of stack `j` keeps a list valid. */
  lemma ReplaceStackValid(t: ItemType, ss: seq<Stack>, j: nat, s: Stack)
    requires StacksValid(t, ss) && j < |ss|
    requires StackValid(s) && s.itemType == t && |s.items| > 0 && s.itemName == ss[j].itemName
    ensures StacksValid(t, ss[j := s])
  {
  }

  /**
   * `removeItem` keeps the inventory valid. Taking from an unlimited stack
   * changes nothing; taking from a limited one lowers `getItemCount` of the
   * type by exactly one. An absent name changes nothing.
   */
  lemma TakeValid(m: Table, key: ItemType, name: string)
    requires TableValid(m) && key in m
    ensures TableValid(AfterTake(m, key, name))
    ensures key in AfterTake(m, key, name)
    ensures match FindName(m[key], name)
            case None => AfterTake(m, key, name) == m
            case Some(j) =>
              (m[key][j].isUnlimited ==> AfterTake(m, key, name) == m)
              && (!m[key][j].isUnlimited ==> LimitedCount(AfterTake(m, key, name)[key]) == LimitedCount(m[key]) - 1)
  {
    hide TableValid, StacksValid;
    var ss := m[key];
    TableValidAt(m, key);
    match FindName(ss, name)
    case None =>
    case Some(j) =>
      StacksValidAt(key, ss, j);
      RemoveFirstCount(ss[j]);
      var s := AfterRemoveFirst(ss[j]);
      LimitedCountUpdate(ss, j, s);
      if |s.items| == 0 {
        RemoveStackValid(key, ss, j);
        TableUpdate(m, key, ArrayRandom.RemoveAt(ss, j));
      } else {
        ReplaceStackValid(key, ss, j, s);
        TableUpdate(m, key, ss[j := s]);
        if ss[j].isUnlimited {
          assert ss[j := s] == ss;
          assert m[key := ss] == m;
        }
      }
  }

  lemma TableValidAt(m: Table, t: ItemType)
    requires TableValid(m) && t in m
    ensures StacksValid(t, m[t])
  {
  }

  lemma StacksValidAt(t: ItemType, ss: seq<Stack>, j: nat)
    requires StacksValid(t, ss) && j < |ss|
    ensures StackValid(ss[j]) && ss[j].itemType == t && |ss[j].items| > 0
  {
  }

  lemma TableUpdate(m: Table, t: ItemType, ss: seq<Stack>)
    requires TableValid(m) && StacksValid(t, ss)
    ensures TableValid(m[t := ss])
  {
  }

  /** `removeAllItems` with `includeUnlimitedStack` false keeps exactly the unlimited stacks; with it true, nothing. */
  lemma {:induction false} KeptExactly(ss: seq<Stack>, includeUnlimitedStack: bool)
    ensures forall s :: s in KeptStacks(ss, includeUnlimitedStack) <==> s in ss && s.isUnlimited && !includeUnlimitedStack
    decreases |ss|
  {
    if ss != [] {
      KeptExactly(ss[..|ss| - 1], includeUnlimitedStack);
      assert ss == ss[..|ss| - 1] + [ss[|ss| - 1]];
    }
  }

  /** The stacks `removeAllItems` leaves are a valid list of the same type. */
  lemma {:induction false} KeptValid(t: ItemType, ss: seq<Stack>, includeUnlimitedStack: bool)
    requires StacksValid(t, ss)
    ensures StacksValid(t, KeptStacks(ss, includeUnlimitedStack))
    ensures forall s :: s in KeptStacks(ss, includeUnlimitedStack) ==> s in ss
    decreases |ss|
  {
    if ss != [] {
      var front := ss[..|ss| - 1];
      var last := ss[|ss| - 1];
      assert StacksValid(t, front);
      KeptValid(t, front, includeUnlimitedStack);
      var kf := KeptStacks(front, includeUnlimitedStack);
      if Kept(last, includeUnlimitedStack) {
        var ks := kf + [last];
        forall p | 0 <= p < |kf|
          ensures kf[p].itemName != last.itemName
        {
          assert kf[p] in front;
          var q :| 0 <= q < |front| && front[q] == kf[p];
          assert ss[q] == kf[p] && ss[|ss| - 1] == last;
        }
        assert StacksValid(t, ks);
      }
    }
  }
}
