/**
 * The inventory's statistics: how many items of a type a player has, and the
 * inline cards that list them. `inlineCardTitle`, the title template the
 * cards use, is not part of this model and is given as `template`; an item's
 * own card (`getInlineCard()`) is given as `cardOf`.
 */
module InventoryStats {
  import opened Wrappers
  import opened Items
  import opened InventoryStacks
  import opened Inventories
  import opened Texts

  /**
   * The title of a card from a stack: an unlimited stack keeps the item's
   * title; a limited one with no template gets its count appended; otherwise
   * the template with `$name` replaced by the title, then `$count` by the count.
   */
  function CardTitle(template: string, title: string, isUnlimited: bool, count: nat): (t: string)
    ensures isUnlimited ==> t == title
    ensures !isUnlimited && template == "" ==> t == title + "  (You have " + Decimal(count) + ")"
  {
    if isUnlimited then title
    else if template != "" then ReplaceAll(ReplaceAll(template, "$name", title), "$count", Decimal(count))
    else title + "  (You have " + Decimal(count) + ")"
  }

  /** The cards of stack `i` of the type, as `getInlineCards(forType:)` rewrites them. */
  function NumberedCards(i: nat, s: Stack, template: string, cardOf: Item -> Card): (cs: seq<Card>)
    requires s.itemIsStackable ==> |s.items| > 0
    ensures |cs| == |StackCards(s, cardOf)|
    ensures forall k :: 0 <= k < |cs| ==> cs[k].id == Decimal(i + 1)
  {
    var base := StackCards(s, cardOf);
    seq(|base|, k requires 0 <= k < |base| =>
      Card(Decimal(i + 1), CardTitle(template, base[k].title, s.isUnlimited, |s.items|), base[k].description, base[k].contents))
  }

  /** Every stackable stack of the list has an item: `getInlineCards()` reads the first one. */
  predicate CardsDefined(ss: seq<Stack>)
  {
    forall i :: 0 <= i < |ss| ==> (ss[i].itemIsStackable ==> |ss[i].items| > 0)
  }

  /** The cards of a list of stacks: those of stack 0, then those of stack 1, and so on. */
  function TypeCards(ss: seq<Stack>, template: string, cardOf: Item -> Card): seq<Card>
    requires CardsDefined(ss)
  {
    if ss == [] then []
    else TypeCards(ss[..|ss| - 1], template, cardOf) + NumberedCards(|ss| - 1, ss[|ss| - 1], template, cardOf)
  }

  /** `getItemCount(forType:)`: 0 for a missing type, otherwise the items of the limited stacks. */
  method GetItemCount(inv: Inventory, t: ItemType) returns (totalCount: nat)
    ensures totalCount == if t in inv.items then LimitedCount(inv.items[t]) else 0
  {
    if t !in inv.items {
      return 0;
    }
    totalCount := 0;
    var stacks := inv.items[t];
    var i := 0;
    while i < |stacks|
      invariant 0 <= i <= |stacks|
      invariant totalCount == LimitedCount(stacks[..i])
    {
      assert stacks[..i + 1][..i] == stacks[..i];
      if !stacks[i].isUnlimited {
        totalCount := totalCount + |stacks[i].items|;
      }
      i := i + 1;
    }
    assert stacks[..i] == stacks;
  }

  /**
   * `getInlineCards(forType:)`: nil for a missing type; otherwise the cards
   * of every stack in order, each with the id one more than its stack's
   * position and its title rewritten.
   */
  method GetInlineCards(inv: Inventory, t: ItemType, template: string, cardOf: Item -> Card) returns (r: Option<seq<Card>>)
    requires t in inv.items ==> CardsDefined(inv.items[t])
    ensures r.None? <==> t !in inv.items
    ensures r.Some? ==> r.value == TypeCards(inv.items[t], template, cardOf)
  {
    hide ReplaceAll, Decimal;
    if t !in inv.items {
      return None;
    }
    var result: seq<Card> := [];
    var stacks := inv.items[t];
    assert stacks[..0] == [];
    var i := 0;
    while i < |stacks|
      invariant 0 <= i <= |stacks|
      invariant CardsDefined(stacks[..i])
      invariant result == TypeCards(stacks[..i], template, cardOf)
    {
      var stack := stacks[i];
      var cards := StackCards(stack, cardOf);
      ghost var numbered := NumberedCards(i, stack, template, cardOf);
      ghost var before := result;
      var k := 0;
      while k < |cards|
        invariant 0 <= k <= |cards|
        invariant |numbered| == |cards|
        invariant result == before + numbered[..k]
      {
        var card := cards[k];
        var newCard := Card(Decimal(i + 1), card.title, card.description, card.contents);
        if !stack.isUnlimited {
          if template != "" {
            var newTitle := template;
            newTitle := ReplaceAll(newTitle, "$name", newCard.title);
            newTitle := ReplaceAll(newTitle, "$count", Decimal(|stack.items|));
            newCard := newCard.(title := newTitle);
          } else {
            newCard := newCard.(title := newCard.title + "  (You have " + Decimal(|stack.items|) + ")");
          }
        }
        assert newCard == numbered[k];
        assert numbered[..k + 1] == numbered[..k] + [newCard];
        result := result + [newCard];
        k := k + 1;
      }
      assert numbered[..k] == numbered;
      TypeCardsStep(stacks, i, template, cardOf);
      i := i + 1;
    }
    assert stacks[..i] == stacks;
    return Some(result);
  }

  // ----- properties -----

  /** Taking one more stack appends that stack's cards. */
  lemma TypeCardsStep(ss: seq<Stack>, i: nat, template: string, cardOf: Item -> Card)
    requires CardsDefined(ss) && i < |ss|
    ensures CardsDefined(ss[..i]) && CardsDefined(ss[..i + 1])
    ensures TypeCards(ss[..i + 1], template, cardOf)
         == TypeCards(ss[..i], template, cardOf) + NumberedCards(i, ss[i], template, cardOf)
  {
    var p := ss[..i + 1];
    assert p[..|p| - 1] == ss[..i];
  }

  /** The cards of the first stacks start the cards of them all. */
  lemma {:induction false} TypeCardsPrefix(ss: seq<Stack>, j: nat, template: string, cardOf: Item -> Card)
    requires CardsDefined(ss) && j <= |ss|
    ensures CardsDefined(ss[..j])
    ensures TypeCards(ss[..j], template, cardOf) <= TypeCards(ss, template, cardOf)
    decreases |ss| - j
  {
    if j < |ss| {
      TypeCardsPrefix(ss, j + 1, template, cardOf);
      TypeCardsStep(ss, j, template, cardOf);
    } else {
      assert ss[..j] == ss;
    }
  }

  /**
   * The cards of stack `i` sit together and in order, right after those of the
   * stacks before it, and each carries the id `i + 1`.
   */
  lemma CardPlacement(ss: seq<Stack>, i: nat, k: nat, template: string, cardOf: Item -> Card)
    requires CardsDefined(ss) && i < |ss|
    requires k < |StackCards(ss[i], cardOf)|
    ensures CardsDefined(ss[..i])
    ensures |TypeCards(ss[..i], template, cardOf)| + k < |TypeCards(ss, template, cardOf)|
    ensures var c := TypeCards(ss, template, cardOf)[|TypeCards(ss[..i], template, cardOf)| + k];
            c == NumberedCards(i, ss[i], template, cardOf)[k] && c.id == Decimal(i + 1)
  {
    hide Decimal, CardTitle, TypeCards;
    TypeCardsPrefix(ss, i + 1, template, cardOf);
    TypeCardsStep(ss, i, template, cardOf);
    var all := TypeCards(ss, template, cardOf);
    var pre := TypeCards(ss[..i], template, cardOf);
    var ns := NumberedCards(i, ss[i], template, cardOf);
    var upTo := TypeCards(ss[..i + 1], template, cardOf);
    assert upTo == pre + ns && upTo <= all;
    assert all[|pre| + k] == upTo[|pre| + k] == ns[k];
  }

  /**
   * Template rules: a template with no placeholder is the title as it is; `$name`
   * alone gives the item's title (when that has no `$count` of its own); `$count`
   * alone gives the count.
   */
  lemma TitleTemplates(template: string, title: string, count: nat)
    ensures (forall i: nat :: !OccursAt("$name", template, i) && !OccursAt("$count", template, i)) && template != "" ==>
              CardTitle(template, title, false, count) == template
    ensures (forall i: nat :: !OccursAt("$count", title, i)) ==> CardTitle("$name", title, false, count) == title
    ensures CardTitle("$count", title, false, count) == Decimal(count)
  {
    if (forall i: nat :: !OccursAt("$name", template, i) && !OccursAt("$count", template, i)) && template != "" {
      ReplaceAbsent(template, "$name", title);
      ReplaceAbsent(template, "$count", Decimal(count));
    }
    ReplaceWhole("$name", title);
    if forall i: nat :: !OccursAt("$count", title, i) {
      ReplaceAbsent(title, "$count", Decimal(count));
    }
    forall i: nat
      ensures !OccursAt("$name", "$count", i)
    {
      if i + 5 <= 6 {
        assert "$count"[i..i + 5] != "$name" by {
          if i == 0 { assert "$count"[1] == 'c'; } else { assert "$count"[i] != '$'; }
        }
      }
    }
    ReplaceAbsent("$count", "$name", title);
    ReplaceWhole("$count", Decimal(count));
  }

  /**
   * Counting after adding one item: a new stack adds one; an item accepted
   * into a limited stack adds one; an item refused, or taken into an
   * unlimited stack, adds nothing. Other types keep their counts.
   */
  lemma AddOneCount(m: Table, item: Item)
    ensures var ss := WithType(m, item.itemType)[item.itemType];
            var after := AddOne(m, item)[item.itemType];
            match FindName(ss, item.name)
            case None => LimitedCount(after) == LimitedCount(ss) + 1
            case Some(j) =>
              LimitedCount(after) == LimitedCount(ss)
                + (if !ss[j].isUnlimited && Compare(ss[j], item) && item !in ss[j].items then 1 else 0)
  {
    var ss := WithType(m, item.itemType)[item.itemType];
    match FindName(ss, item.name)
    case None =>
      LimitedCountJoin(ss, [NewStack(item)]);
      assert [NewStack(item)][..0] == [];
    case Some(j) =>
      LimitedCountUpdate(ss, j, Added(ss[j], item));
  }
}
