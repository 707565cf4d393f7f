/**
 * Items: the `ItemTypeTag` that names a category of item, and the items
 * themselves (`ItemRepresentible`). Items are objects whose identity matters:
 * a stack refuses to hold the same instance twice, and an unlimited stack hands
 * out clones, which are new instances. An item's properties never change once
 * it is made, so they are constants here.
 */
module Items {

  /** `ItemTypeTag`, with its field-wise `==`. */
  datatype ItemType = ItemType(
    name: string,
    symbol: string,
    pluralisedName: string,
    routeName: string,
    description: string)

  /** An inline query card (`InlineResultArticle`): the fields the inventory reads and rewrites. */
  datatype Card = Card(id: string, title: string, description: string, contents: string)

  /** One item. `fullName` is what the item's `getFullName()` returns. */
  class Item {
    const name: string
    const itemType: ItemType
    const description: string
    const isStackable: bool
    const fullName: string

    constructor (name: string, itemType: ItemType, description: string, isStackable: bool, fullName: string)
      ensures this.name == name && this.itemType == itemType && this.description == description
      ensures this.isStackable == isStackable && this.fullName == fullName
    {
      this.name := name;
      this.itemType := itemType;
      this.description := description;
      this.isStackable := isStackable;
      this.fullName := fullName;
    }

    /** `clone()`: a new instance with every property copied. */
    method Clone() returns (c: Item)
      ensures fresh(c) && SameProperties(c, this)
    {
      c := new Item(name, itemType, description, isStackable, fullName);
    }
  }

  /** Two items are copies of each other. */
  predicate SameProperties(a: Item, b: Item)
  {
    a.name == b.name && a.itemType == b.itemType && a.description == b.description
    && a.isStackable == b.isStackable && a.fullName == b.fullName
  }

  /** `isEqualTo(_:)`: name, type and description agree. */
  predicate IsEqualTo(a: Item, b: Item)
  {
    a.name == b.name && a.itemType == b.itemType && a.description == b.description
  }

  /** Copies, one for one, of some items. */
  predicate ClonesOf(clones: seq<Item>, originals: seq<Item>)
  {
    |clones| == |originals| && forall i :: 0 <= i < |clones| ==> SameProperties(clones[i], originals[i])
  }

  /** Copies of two lists, one after the other, copy the two lists joined. */
  lemma ClonesAppend(a: seq<Item>, da: seq<Item>, b: seq<Item>, db: seq<Item>)
    requires ClonesOf(a, da) && ClonesOf(b, db)
    ensures ClonesOf(a + b, da + db)
  {
  }

  /** `cloneStack()` and friends: one new instance per item, in order. */
  method CloneAll(items: seq<Item>) returns (clones: seq<Item>)
    ensures ClonesOf(clones, items)
    ensures forall i :: 0 <= i < |clones| ==> fresh(clones[i])
  {
    clones := [];
    var i := 0;
    while i < |items|
      invariant 0 <= i <= |items| && |clones| == i
      invariant forall k :: 0 <= k < i ==> fresh(clones[k]) && SameProperties(clones[k], items[k])
    {
      var c := items[i].Clone();
      clones := clones + [c];
      i := i + 1;
    }
  }
}
