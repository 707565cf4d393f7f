/**
 * `Reward`: points (a range per point type, rolled when given), item groups
 * keyed by the items' full names, and item generators. The message
 * `giveReward` composes for one player is not part of this model; it is a
 * parameter of `applyReward`, which joins those messages.
 */
module Rewards {
  import opened Items
  import opened Points
  import opened Texts

  /** A `ClosedRange<Int>`: Swift refuses to build one whose lower bound exceeds its upper bound. */
  datatype Range = Range(lower: int, upper: int)
  type ClosedRange = r: Range | r.lower <= r.upper witness Range(0, 0)

  /** Item groups keyed by full name. */
  type Groups = map<string, seq<Item>>

  // ----- counting -----

  /** The number of items in all groups, in whatever order the keys are visited. */
  ghost function Total(m: Groups): nat
    decreases |m|
  {
    if m == map[] then 0
    else
      var k :| k in m;
      assert |m - {k}| < |m| by { assert m.Keys == (m - {k}).Keys + {k}; }
      |m[k]| + Total(m - {k})
  }

  /** Any key can be counted first: the total does not depend on the order of the keys. */
  lemma {:induction false} TotalRemove(m: Groups, k: string)
    requires k in m
    ensures Total(m) == |m[k]| + Total(m - {k})
    decreases |m|
  {
    var j :| j in m && Total(m) == |m[j]| + Total(m - {j});
    if j != k {
      var mj, mk := m - {j}, m - {k};
      assert |mj| < |m| by { assert m.Keys == mj.Keys + {j}; }
      assert |mk| < |m| by { assert m.Keys == mk.Keys + {k}; }
      TotalRemove(mj, k);
      TotalRemove(mk, j);
      assert mj - {k} == mk - {j};
    }
  }

  /** Replacing one group changes the total by the difference of the two groups' sizes. */
  lemma TotalUpdate(m: Groups, k: string, v: seq<Item>)
    ensures Total(m[k := v]) == Total(m) - (if k in m then |m[k]| else 0) + |v|
  {
    TotalRemove(m[k := v], k);
    assert m[k := v] - {k} == m - {k};
    if k in m {
      TotalRemove(m, k);
    } else {
      assert m - {k} == m;
    }
  }

  // ----- grouping -----

  /** The full names of the items. */
  function Names(s: seq<Item>): set<string>
  {
    if s == [] then {} else Names(s[..|s| - 1]) + {s[|s| - 1].fullName}
  }

  /** The position of the last item with the full name. */
  function LastIndex(s: seq<Item>, k: string): (r: nat)
    requires k in Names(s)
    ensures r < |s| && s[r].fullName == k
    ensures forall j :: r < j < |s| ==> s[j].fullName != k
  {
    var n := |s| - 1;
    if s[n].fullName == k then n else LastIndex(s[..n], k)
  }

  /** The items with the full name, in order; none for a name no item has. */
  function WithName(s: seq<Item>, k: string): (r: seq<Item>)
    ensures k !in Names(s) ==> r == []
  {
    if s == [] then []
    else WithName(s[..|s| - 1], k) + (if s[|s| - 1].fullName == k then [s[|s| - 1]] else [])
  }

  /**
   * What `addItems(_:set:)` returns. Every key of `groups` and every incoming
   * full name is a key. A name no incoming item has keeps its group. A name
   * some incoming item has gets, when `groups` has that key, the group that
   * `items` holds for it, and in every case only the LAST incoming item with
   * that name: membership is tested against `groups`, not against the groups
   * being built, and the group is read from `items`, so earlier incoming
   * items with the same name are overwritten.
   */
  ghost predicate GroupedAsWritten(r: Groups, groups: Groups, items: Groups, incoming: seq<Item>)
  {
    SameKeys(r, groups, incoming) && KeepsUnmentioned(r, groups, incoming) && LastOnly(r, groups, items, incoming)
  }

  /** What grouping by full name evidently means: each group is its old contents followed by all incoming items with that name. */
  ghost predicate Grouped(r: Groups, groups: Groups, incoming: seq<Item>)
  {
    SameKeys(r, groups, incoming) && AllAppended(r, groups, incoming)
  }

  /** The keys are the old keys and the incoming full names. */
  ghost predicate SameKeys(r: Groups, groups: Groups, incoming: seq<Item>)
  {
    r.Keys == groups.Keys + Names(incoming)
  }

  /** A group no incoming item names is unchanged. */
  ghost predicate KeepsUnmentioned(r: Groups, groups: Groups, incoming: seq<Item>)
  {
    forall k :: k in r && k in groups && k !in Names(incoming) ==> r[k] == groups[k]
  }

  /** A named group is the `items` group (when `groups` has the key) and the last incoming item with that name. */
  ghost predicate LastOnly(r: Groups, groups: Groups, items: Groups, incoming: seq<Item>)
  {
    forall k :: k in r && k in Names(incoming) ==>
      r[k] == (if k in groups && k in items then items[k] else []) + [incoming[LastIndex(incoming, k)]]
  }

  /** Every group is the old group followed by all incoming items with its name. */
  ghost predicate AllAppended(r: Groups, groups: Groups, incoming: seq<Item>)
  {
    forall k :: k in r ==> r[k] == (if k in groups then groups[k] else []) + WithName(incoming, k)
  }

  lemma AsWrittenStart(groups: Groups, items: Groups, incoming: seq<Item>)
    ensures GroupedAsWritten(groups, groups, items, incoming[..0])
  {
    assert incoming[..0] == [];
  }

  lemma GroupedStart(groups: Groups, incoming: seq<Item>)
    ensures Grouped(groups, groups, incoming[..0])
  {
    assert incoming[..0] == [];
  }

  lemma NamesStep(incoming: seq<Item>, i: nat)
    requires i < |incoming|
    ensures Names(incoming[..i + 1]) == Names(incoming[..i]) + {incoming[i].fullName}
  {
    assert incoming[..i + 1][..i] == incoming[..i];
  }

  /** The new item is the last with its name; every other name keeps its last position. */
  lemma LastIndexStep(incoming: seq<Item>, i: nat, n: string)
    requires i < |incoming| && n in Names(incoming[..i + 1])
    ensures n == incoming[i].fullName ==> LastIndex(incoming[..i + 1], n) == i
    ensures n != incoming[i].fullName ==> n in Names(incoming[..i]) && LastIndex(incoming[..i + 1], n) == LastIndex(incoming[..i], n)
  {
    assert incoming[..i + 1][..i] == incoming[..i];
  }

  lemma WithNameStep(incoming: seq<Item>, i: nat, n: string)
    requires i < |incoming|
    ensures WithName(incoming[..i + 1], n) == WithName(incoming[..i], n) + (if incoming[i].fullName == n then [incoming[i]] else [])
  {
    assert incoming[..i + 1][..i] == incoming[..i];
  }

  lemma SameKeysStep(r: Groups, r': Groups, groups: Groups, incoming: seq<Item>, i: nat)
    requires i < |incoming| && r'.Keys == r.Keys + {incoming[i].fullName}
    requires SameKeys(r, groups, incoming[..i])
    ensures SameKeys(r', groups, incoming[..i + 1])
  {
    NamesStep(incoming, i);
  }

  lemma KeepsUnmentionedStep(r: Groups, r': Groups, v: seq<Item>, groups: Groups, incoming: seq<Item>, i: nat)
    requires i < |incoming| && r' == r[incoming[i].fullName := v]
    requires KeepsUnmentioned(r, groups, incoming[..i])
    ensures KeepsUnmentioned(r', groups, incoming[..i + 1])
  {
    NamesStep(incoming, i);
  }

  lemma LastOnlyStep(r: Groups, r': Groups, groups: Groups, items: Groups, incoming: seq<Item>, i: nat)
    requires i < |incoming|
    requires var k := incoming[i].fullName;
             r' == r[k := if k in groups && k in items then items[k] + [incoming[i]] else [incoming[i]]]
    requires LastOnly(r, groups, items, incoming[..i])
    ensures LastOnly(r', groups, items, incoming[..i + 1])
  {
    var s' := incoming[..i + 1];
    forall n | n in r' && n in Names(s')
      ensures r'[n] == (if n in groups && n in items then items[n] else []) + [s'[LastIndex(s', n)]]
    {
      LastIndexStep(incoming, i, n);
    }
  }

  lemma AllAppendedStep(r: Groups, r': Groups, groups: Groups, incoming: seq<Item>, i: nat)
    requires i < |incoming| && SameKeys(r, groups, incoming[..i])
    requires var k := incoming[i].fullName;
             r' == r[k := if k in r then r[k] + [incoming[i]] else [incoming[i]]]
    requires AllAppended(r, groups, incoming[..i])
    ensures AllAppended(r', groups, incoming[..i + 1])
  {
    forall n | n in r'
      ensures r'[n] == (if n in groups then groups[n] else []) + WithName(incoming[..i + 1], n)
    {
      WithNameStep(incoming, i, n);
    }
  }

  lemma AsWrittenStep(r: Groups, r': Groups, groups: Groups, items: Groups, incoming: seq<Item>, i: nat)
    requires i < |incoming|
    requires incoming[i].fullName in groups ==> incoming[i].fullName in items
    requires var k := incoming[i].fullName;
             r' == r[k := if k in groups then items[k] + [incoming[i]] else [incoming[i]]]
    requires GroupedAsWritten(r, groups, items, incoming[..i])
    ensures GroupedAsWritten(r', groups, items, incoming[..i + 1])
  {
    hide SameKeys, KeepsUnmentioned, LastOnly;
    SameKeysStep(r, r', groups, incoming, i);
    KeepsUnmentionedStep(r, r', r'[incoming[i].fullName], groups, incoming, i);
    LastOnlyStep(r, r', groups, items, incoming, i);
  }

  lemma GroupedStep(r: Groups, r': Groups, groups: Groups, incoming: seq<Item>, i: nat)
    requires i < |incoming|
    requires var k := incoming[i].fullName;
             r' == r[k := if k in r then r[k] + [incoming[i]] else [incoming[i]]]
    requires Grouped(r, groups, incoming[..i])
    ensures Grouped(r', groups, incoming[..i + 1])
  {
    hide SameKeys, AllAppended;
    SameKeysStep(r, r', groups, incoming, i);
    AllAppendedStep(r, r', groups, incoming, i);
  }

  class Reward {
    var points: map<PointType, ClosedRange>
    var items: Groups
    var randomItems: seq<() -> Item>

    /** `init()`: nothing to give. */
    constructor ()
      ensures points == map[] && items == map[] && randomItems == []
    {
      points := map[];
      items := map[];
      randomItems := [];
    }

    /** `init(withCurrency:amount:)`: exactly one point entry, and no items. */
    constructor WithCurrency(t: PointType, amount: ClosedRange)
      ensures points == map[t := amount] && items == map[] && randomItems == []
    {
      points := map[t := amount];
      items := map[];
      randomItems := [];
    }

    /** `init(withItems:)`: the incoming items grouped as `addItems(_:set:)` groups them into no groups. */
    constructor WithItems(incomingItems: seq<Item>)
      ensures points == map[] && randomItems == []
      ensures GroupedAsWritten(items, map[], map[], incomingItems)
    {
      points := map[];
      items := map[];
      randomItems := [];
      new;
      var updated := AddItems(incomingItems, items);
      items := updated;
    }

    /** `init(withRandomItems:)`: the generators, and nothing else. */
    constructor WithRandomItems(itemGen: seq<() -> Item>)
      ensures points == map[] && items == map[] && randomItems == itemGen
    {
      points := map[];
      items := map[];
      randomItems := itemGen;
    }

    /** `hasNoReward`: no point entries, no item groups and no generators. */
    predicate HasNoReward(): (r: bool)
      reads this
      ensures r <==> points == map[] && items == map[] && randomItems == []
    {
      |points.Keys| == 0 && |items.Values| == 0 && |randomItems| == 0
    }

    /** `itemCount`: the size of every group, counted key by key, and one per generator. */
    method ItemCount() returns (result: nat)
      ensures result == Total(items) + |randomItems|
    {
      result := 0;
      var rest := items;
      while rest != map[]
        invariant result + Total(rest) == Total(items)
        decreases |rest|
      {
        var k :| k in rest;
        TotalRemove(rest, k);
        assert |rest - {k}| < |rest| by { assert rest.Keys == (rest - {k}).Keys + {k}; }
        result := result + |rest[k]|;
        rest := rest - {k};
      }
      result := result + |randomItems|;
    }

    /**
     * `addItems(_:set:)`, as written. A full name that `groups` has must
     * also be a key of `items`, whose group is force-unwrapped.
     */
    method AddItems(incomingItems: seq<Item>, groups: Groups) returns (updatedSet: Groups)
      requires forall i :: 0 <= i < |incomingItems| && incomingItems[i].fullName in groups ==> incomingItems[i].fullName in items
      ensures GroupedAsWritten(updatedSet, groups, items, incomingItems)
    {
      hide GroupedAsWritten;
      updatedSet := groups;
      var i := 0;
      AsWrittenStart(groups, items, incomingItems);
      while i < |incomingItems|
        invariant 0 <= i <= |incomingItems|
        invariant GroupedAsWritten(updatedSet, groups, items, incomingItems[..i])
      {
        var item := incomingItems[i];
        ghost var before := updatedSet;
        if item.fullName in groups {
          var stack := items[item.fullName];
          stack := stack + [item];
          updatedSet := updatedSet[item.fullName := stack];
        } else {
          updatedSet := updatedSet[item.fullName := [item]];
        }
        AsWrittenStep(before, updatedSet, groups, items, incomingItems, i);
        i := i + 1;
      }
      assert incomingItems[..i] == incomingItems;
    }

    /** `applyReward(_:)`: every player's message, separated by line breaks, with none after the last. */
    method ApplyReward<U>(players: seq<U>, giveReward: U -> string) returns (result: string)
      ensures result == Join(Messages(players, giveReward), "\n")
    {
      var msgs := Messages(players, giveReward);
      result := "";
      var i := 0;
      while i < |players|
        invariant 0 <= i <= |players|
        invariant result == if i == 0 then "" else Join(msgs[..i], "\n") + (if i < |players| then "\n" else "")
      {
        assert msgs[..i + 1][..i] == msgs[..i];
        result := result + giveReward(players[i]);
        if i != |players| - 1 {
          result := result + "\n";
        }
        i := i + 1;
      }
      assert msgs[..i] == msgs;
    }
  }

  /** The message `giveReward` composes for each player, in order. */
  function Messages<U>(players: seq<U>, giveReward: U -> string): (r: seq<string>)
    ensures |r| == |players| && forall i :: 0 <= i < |r| ==> r[i] == giveReward(players[i])
  {
    seq(|players|, i requires 0 <= i < |players| => giveReward(players[i]))
  }

  /**
   * `addItems(_:set:)` as its comments describe it: membership is tested
   * against the groups being built and the group is read from them, so every
   * incoming item lands in its group.
   */
  method AddItemsCorrected(incomingItems: seq<Item>, groups: Groups) returns (updatedSet: Groups)
    ensures Grouped(updatedSet, groups, incomingItems)
    ensures Total(updatedSet) == Total(groups) + |incomingItems|
  {
    hide Grouped;
    updatedSet := groups;
    var i := 0;
    GroupedStart(groups, incomingItems);
    while i < |incomingItems|
      invariant 0 <= i <= |incomingItems|
      invariant Grouped(updatedSet, groups, incomingItems[..i])
      invariant Total(updatedSet) == Total(groups) + i
    {
      var item := incomingItems[i];
      ghost var before := updatedSet;
      if item.fullName in updatedSet {
        TotalUpdate(updatedSet, item.fullName, updatedSet[item.fullName] + [item]);
        updatedSet := updatedSet[item.fullName := updatedSet[item.fullName] + [item]];
      } else {
        TotalUpdate(updatedSet, item.fullName, [item]);
        updatedSet := updatedSet[item.fullName := [item]];
      }
      GroupedStep(before, updatedSet, groups, incomingItems, i);
      i := i + 1;
    }
    assert incomingItems[..i] == incomingItems;
  }

  // ----- properties -----

  /**
   * Which rewards have nothing to give: one with no point entries, no
   * groups and no generators counts no items, and, when every group holds
   * an item, one with no point entries that counts no items has nothing.
   */
  lemma NothingToGive(points: map<PointType, ClosedRange>, items: Groups, randomItems: seq<() -> Item>)
    ensures |points.Keys| == 0 && |items.Values| == 0 && |randomItems| == 0 ==> Total(items) + |randomItems| == 0
    ensures (forall k :: k in items ==> items[k] != []) && points == map[] && Total(items) + |randomItems| == 0
            ==> |points.Keys| == 0 && |items.Values| == 0 && |randomItems| == 0
  {
    if items != map[] {
      var k :| k in items;
      TotalRemove(items, k);
      assert items[k] in items.Values;
    } else {
      assert items.Values == {};
    }
  }

  /** `init(withItems:)` gives every full name a group of one: the last incoming item with that name. */
  lemma InitGroupsHoldOne(r: Groups, incoming: seq<Item>)
    requires GroupedAsWritten(r, map[], map[], incoming)
    ensures r.Keys == Names(incoming)
    ensures forall k :: k in r ==> r[k] == [incoming[LastIndex(incoming, k)]]
  {
  }

  /**
   * Two items with the same full name given to `init(withItems:)` leave a
   * group holding only the second, so the reward counts one item.
   */
  lemma DuplicatesCollapse(a: Item, b: Item, r: Groups)
    requires a.fullName == b.fullName
    requires GroupedAsWritten(r, map[], map[], [a, b])
    ensures r == map[a.fullName := [b]] && Total(r) == 1
  {
    var k := a.fullName;
    PairNames(a, b);
    assert r.Keys == {k};
    assert r[k] == [] + [[a, b][1]] == [b];
    assert r == map[k := [b]];
    TotalRemove(r, k);
    assert r - {k} == map[];
  }

  /** Grouped as intended, the same two items stay together: one group of two. */
  lemma DuplicatesKept(a: Item, b: Item, r: Groups)
    requires a.fullName == b.fullName
    requires Grouped(r, map[], [a, b])
    ensures r == map[a.fullName := [a, b]] && Total(r) == 2
  {
    var k := a.fullName;
    PairNames(a, b);
    assert r.Keys == {k};
    assert r[k] == [] + [a, b] == [a, b];
    assert r == map[k := [a, b]];
    TotalRemove(r, k);
    assert r - {k} == map[];
  }

  lemma PairNames(a: Item, b: Item)
    requires a.fullName == b.fullName
    ensures Names([a, b]) == {a.fullName}
    ensures LastIndex([a, b], a.fullName) == 1
    ensures WithName([a, b], a.fullName) == [a, b]
  {
    var k := a.fullName;
    assert [a, b][..1] == [a];
    assert [a][..0] == [];
    assert Names([a]) == {k};
    assert WithName([a], k) == [] + [a] == [a];
    assert WithName([a, b], k) == [a] + [b] == [a, b];
  }
}
