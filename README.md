# TrashBoat game core in Dafny

TrashBoat is a Swift toolkit for party games played in a chat with a bot. This project models the game-state core of that toolkit and proves properties of it. The core has five parts:

- **Selection engine.** A `Dice` value is rolled under one of its policies: a range, a selection, a constant or a probability table. A `Generator` draws repeatedly from a pool of `GeneratorOption`s. The weight of each option changes after every round, following its `GenBump` feedback policy. `DiceItem` rolls a set of dice for an item. `Array+Random` draws one element, or a few with or without repetition. `Array+UserProxy` rotates the player queue.
- **Inventories.** An `InventoryStack` holds items with the same name. An `Inventory` is a table from item type to stacks. `Inventory+Stats` counts the items and lists their cards.
- **Flairs.** A `Flair` is a status tag. A `FlairStack` holds states of one flair, and each trigger counts them down. A `FlairManager` maps categories to stacks.
- **Points.** A `PointContainer` holds an amount of one currency. A `PointManager` holds containers per currency. A `PointReceipt` records a transaction.
- **Rewards and players.** A `Reward` is a bundle of currency and items, applied to each player in turn. The players' list text is "A, B and C". Two players are `==` when they have the same Telegram ID.

The model has the form of each source file:

- Swift classes whose methods update fields become Dafny classes. Examples are `Generator`, `GeneratorOption`, `InventoryStack`, `Inventory`, `FlairStack`, `FlairManager`, `PointManager` and `Reward`.
- Methods with loops become methods with loop invariants.
- Swift structs and enums become datatypes.
- Each method is proved against a function of the old state or of its inputs. Lemmas about those functions state what the source promises: weights that stay non-negative, pick frequencies proportional to weight, stack and table invariants, round trips such as add-then-remove, and the layout of the list text.

Random draws and closures are parameters of the model:

- `Xoroshiro.random32(max:)` is a value `r` with `0 <= r <= max`. A stream of draws is a function from the draw's number and bound to such a value.
- A bump closure is one of the four `GenBump` policies.
- `giveReward` is the function that `applyReward` calls for each player.
- `inlineCardTitle` gives a card's title template.

Where the source traps, the model has a precondition. Examples are an `Int` that does not fit the `UInt32` a draw takes, `probability[0]` on an empty table, and an empty pool whose generator must always select. "## Left out" lists them.

Where a comment in the source and its code disagree, the model follows the code:

- `GeneratorOption.reset()` assigns the probability to itself, so the current probability is kept.
- `InventoryStack.getStackInfo()` gives one entry for a stackable stack and one entry per item otherwise. Its doc comment says the opposite.
- The initialiser of `Flair` that takes an action drops `allowStacks` and `triggerSimultaneously`.
- `PointManager.add` always appends a new container, even when one of the same type exists.
- `Reward.addItems` keeps only the last item of each full name.
- The sign check of `PointReceipt` compares `amountBefore` with itself.
- `randomSelection(length:)` draws `count` elements and ignores `length`.
- `Reward.hasNoReward` counts `items.values.count`, the number of item groups.
- `FlairManager.findFlair(withName:category:)` looks the table up by the name.

The `Reward.addItems` and `findFlair(withName:category:)` items are discussed under "## Findings".

## Model

| member | source | states |
|---|---|---|
| OptionStates.Initial | Sources/TrashBoat/Core/Generator/GeneratorOption.swift:97-111 | both initialisers set the default and the current probability to the argument, the previous probability to 0 and all three round indices to -1, so the option is not consecutively selected |
| OptionStates.SetProbability | Sources/TrashBoat/Core/Generator/GeneratorOption.swift:32-42 | a negative value leaves the option unchanged; otherwise it becomes the probability and the old one becomes the last probability; indices and default untouched; a non-negative probability stays non-negative |
| OptionStates.SetSelectionIndex | Sources/TrashBoat/Core/Generator/GeneratorOption.swift:54-64 | a negative index is ignored; otherwise the current index becomes the last one, and the option is consecutively selected exactly when the old index was the new one minus 1; probabilities untouched |
| OptionStates.Announce | Sources/TrashBoat/Core/Generator/GeneratorOption.swift:125-127 | the generator index becomes the new round, so `hasBeenSelected` holds exactly when the option was picked in that round; everything else unchanged |
| OptionStates.Reset | Sources/TrashBoat/Core/Generator/GeneratorOption.swift:138-146 | the probability keeps its value (it is assigned to itself), the last probability is 0 and every index is -1, so the option is not consecutively selected |
| OptionStates.ResetIdempotent | Sources/TrashBoat/Core/Generator/GeneratorOption.swift:97-146 | resetting a fresh option changes nothing, and resetting twice equals resetting once |
| OptionStates.ResetKeepsMovedProbability | Sources/TrashBoat/Core/Generator/GeneratorOption.swift:135-139 | contrary to its doc comment, `reset` does not bring a probability that moved away from its default back to it |
| OptionStates.FreshOptionReportsSelected | Sources/TrashBoat/Core/Generator/GeneratorOption.swift:71-74 | a fresh or reset option reports `hasBeenSelected`, because both indices it compares are -1 |
| OptionStates.SettersKeepProbabilityNonNegative | Sources/TrashBoat/Core/Generator/GeneratorOption.swift:31-42 | once non-negative, the probability stays non-negative under any assignment through either setter |
| GenBump.CounterBump | Sources/TrashBoat/Core/Generator/GenBump.swift:17-27 | a selected option with probability at least 1 loses one point (the old value becomes the last); otherwise, including at 0 where the setter refuses -1, nothing changes |
| GenBump.TempDropBump | Sources/TrashBoat/Core/Generator/GenBump.swift:30-44 | a selected option gets `dropValue`, any other the default, each through the guarded setter |
| GenBump.TempDoubleDropBump | Sources/TrashBoat/Core/Generator/GenBump.swift:47-67 | `dropValue` only when selected and consecutively selected; the default in both other cases |
| GenBump.CounterDoubleDropBump | Sources/TrashBoat/Core/Generator/GenBump.swift:73-96 | a selected option loses one point of default with no floor, then gets `dropValue` on a second pick in a row or the lowered default otherwise; an unselected one gets its default |
| GenBump.Apply | Sources/TrashBoat/Core/Generator/GenBump.swift:14-98 | no policy touches the selection history or makes a non-negative probability negative; only `counterDoubleDrop` changes the default |
| GeneratorOptions.UpdateState | Sources/TrashBoat/Core/Generator/GeneratorOption.swift:125-133 | `update` sets the generator index to the new round, keeps both selection indices and non-negativity, and without a bump changes nothing else |
| GeneratorOptions.GeneratorOption.constructor | Sources/TrashBoat/Core/Generator/GeneratorOption.swift:97-101 | the option's state is the initial state for the probability; no bump; the item kept |
| GeneratorOptions.GeneratorOption.WithBump | Sources/TrashBoat/Core/Generator/GeneratorOption.swift:106-111 | as above, with the bump kept |
| GeneratorOptions.GeneratorOption.SetProbability | Sources/TrashBoat/Core/Generator/GeneratorOption.swift:36-41 | the fields change as `OptionStates.SetProbability` says |
| GeneratorOptions.GeneratorOption.SetSelectionIndex | Sources/TrashBoat/Core/Generator/GeneratorOption.swift:58-63 | the fields change as `OptionStates.SetSelectionIndex` says |
| GeneratorOptions.GeneratorOption.Select | Sources/TrashBoat/Core/Generator/GeneratorOption.swift:117-120 | `select` is the selection index setter |
| GeneratorOptions.GeneratorOption.Update | Sources/TrashBoat/Core/Generator/GeneratorOption.swift:125-133 | the fields change as `UpdateState` says: announce the round, then run the bump if there is one |
| GeneratorOptions.GeneratorOption.BumpCounter | Sources/TrashBoat/Core/Generator/GenBump.swift:19-24 | running the `counter()` closure on the object changes its state as `CounterBump` says |
| GeneratorOptions.GeneratorOption.BumpTempDrop | Sources/TrashBoat/Core/Generator/GenBump.swift:32-41 | as `TempDropBump` says |
| GeneratorOptions.GeneratorOption.BumpTempDoubleDrop | Sources/TrashBoat/Core/Generator/GenBump.swift:49-64 | as `TempDoubleDropBump` says |
| GeneratorOptions.GeneratorOption.BumpCounterDoubleDrop | Sources/TrashBoat/Core/Generator/GenBump.swift:75-93 | as `CounterDoubleDropBump` says, including the direct decrement of the default |
| GeneratorOptions.GeneratorOption.Reset | Sources/TrashBoat/Core/Generator/GeneratorOption.swift:138-146 | the fields change as `OptionStates.Reset` says |
| GeneratorOptions.CounterDecays | Sources/TrashBoat/Core/Generator/GenBump.swift:16-24 | under `counter()`, k picks in a row take a probability p to max(p - k, 0) and leave the default alone |
| GeneratorOptions.CounterDoubleDropLowersDefault | Sources/TrashBoat/Core/Generator/GenBump.swift:73-96 | under `counterDoubleDrop`, k picks lower the default by exactly k, below zero if need be |
| GeneratorOptions.RepeatedPicksDrop | Sources/TrashBoat/Core/Generator/GenBump.swift:47-96 | under either double-drop policy, two or more picks in a row leave the probability at a non-negative `dropValue` |
| GeneratorOptions.IsolatedPickKeepsDefault | Sources/TrashBoat/Core/Generator/GenBump.swift:47-96 | under either double-drop policy, one pick after a gap leaves the default (lowered by one under `counterDoubleDrop`), not `dropValue` |
| GeneratorOptions.PassedRoundsRestoreDefault | Sources/TrashBoat/Core/Generator/GenBump.swift:30-96 | under the three drop policies, any run of rounds without a pick leaves the option at its non-negative default |
| GeneratorOptions.PassedRoundsKeepCounter | Sources/TrashBoat/Core/Generator/GenBump.swift:16-24 | under `counter()`, rounds without a pick leave the probability alone |
| Dice.Weights | Sources/TrashBoat/Core/Dice/Dice.swift:18 | the odds column of a probability table, row by row |
| Dice.RunningSums | Sources/TrashBoat/Core/Dice/Dice.swift:86-92 | the `odds` table `roll` builds: entry j is the sum of the first j + 1 weights |
| Dice.Scan | Sources/TrashBoat/Core/Dice/Dice.swift:108-122 | the scan stops at the first running sum that reaches the target (the `==` and `>` branches), or falls back to the last row when none does |
| Dice.ScanIsFirst | Sources/TrashBoat/Core/Dice/Dice.swift:108-119 | the scan's answer is exactly the first index whose running sum reaches the target |
| Dice.RandomAt | Sources/TrashBoat/Core/Dice/Dice.swift:69-71 | each call of a stream of `random32(max:)` draws answers within [0, max] |
| Dice.PickIndex | Sources/TrashBoat/Core/Dice/Dice.swift:94-122 | the row a probability roll picks: row 0 when the total is 0 or there is one row, otherwise the scan for draw + 1; always a row of the table |
| Dice.RollValue | Sources/TrashBoat/Core/Dice/Dice.swift:63-123 | defined only where the roll does not trap: a range span, the last index of a selection and `total - 1` of a drawing table all convert to `UInt32`, and the table is not empty. Then a range roll lies in [lowerBound, upperBound], a selection roll is an element of the list, a constant roll is the constant, and a probability roll is one of the table's values (row 0 when the roll does not draw) |
| Dice.Rolled | Sources/TrashBoat/Core/Dice/Dice.swift:63-128 | on the same trap-free rolls: after a range, selection or constant roll `getResult` returns the value; a probability roll returns before `hasResult` is set, and one that does not draw leaves the die as it was |
| Dice.NewRange | Sources/TrashBoat/Core/Dice/Dice.swift:36-39 | a range die with no result |
| Dice.NewSelection | Sources/TrashBoat/Core/Dice/Dice.swift:41-49 | a selection die with no result (both initialisers) |
| Dice.NewConstant | Sources/TrashBoat/Core/Dice/Dice.swift:51-54 | a constant die with no result |
| Dice.NewProbability | Sources/TrashBoat/Core/Dice/Dice.swift:56-59 | a probability die with no result |
| Dice.GetResult | Sources/TrashBoat/Core/Dice/Dice.swift:28-34 | the result when `hasResult`, nil otherwise |
| Dice.Reset | Sources/TrashBoat/Core/Dice/Dice.swift:131-134 | the die keeps its kind and has no result, with result 0 |
| Dice.SumPrefixMonotone | Sources/TrashBoat/Core/Dice/Dice.swift:86-92 | with non-negative weights the running sums never decrease |
| Dice.PickFindsDraw | Sources/TrashBoat/Core/Dice/Dice.swift:104-122 | when the table draws, the picked row's running sum exceeds the draw and every earlier one does not, so the last-row fallback is never taken |
| Dice.PickIsPositive | Sources/TrashBoat/Core/Dice/Dice.swift:104-119 | with non-negative weights a drawing roll never picks a row of weight 0 |
| Dice.PickIndexIff | Sources/TrashBoat/Core/Dice/Dice.swift:104-119 | draw r picks row j exactly when r lies in [sum of the first j weights, sum of the first j + 1 weights) |
| Dice.TotalPositive | Sources/TrashBoat/Core/Dice/Dice.swift:86-92 | a non-empty table of positive weights has a positive total |
| Dice.IntervalSize | Sources/TrashBoat/Core/Dice/Dice.swift:104-106 | there are hi - lo equally likely draws in [lo, hi) |
| Dice.PickCount | Sources/TrashBoat/Core/Dice/Dice.swift:86-119 | of the `total` draws, exactly `odds` pick a given row: the weighting is exact and a weight-0 row is never picked |
| Dice.ProbabilityDieNeverHasResult | Sources/TrashBoat/Core/Dice/Dice.swift:85-127 | initialisers, `roll` and `reset` keep a probability die without a result, so its `getResult` stays nil |
| Dice.Roll | Sources/TrashBoat/Core/Dice/Dice.swift:63-128 | on a roll that does not trap (for instance `Range(0, 4294967296)` traps), returns `RollValue` for the draw and leaves the die as `Rolled` says |
| Dice.BuildOdds | Sources/TrashBoat/Core/Dice/Dice.swift:86-92 | the loop builds exactly the running sums and the total |
| Dice.RollProbability | Sources/TrashBoat/Core/Dice/Dice.swift:85-123 | on a non-empty table whose `total - 1` converts to `UInt32` when it draws, the probability branch, with its early return and the scan with early returns, returns `RollValue` and leaves the die as `Rolled` says |
| Generators.PositiveOdds | Sources/TrashBoat/Core/Generator/Generator.swift:64-69 | the table holds one `(index, probability)` row per option of positive probability, in pool order with strictly increasing indices, and is empty exactly when no option is positive |
| Generators.PositiveOddsCovers | Sources/TrashBoat/Core/Generator/Generator.swift:65-69 | every option of positive probability has a row in the table |
| Generators.UniformOdds | Sources/TrashBoat/Core/Generator/Generator.swift:77-81 | the fallback table gives every option of the pool weight 1 |
| Generators.UniformTotal | Sources/TrashBoat/Core/Generator/Generator.swift:77-82 | the weights of the fallback table add up to the number of options, so its die converts `count - 1` to `UInt32` |
| Generators.RoundOdds | Sources/TrashBoat/Core/Generator/Generator.swift:61-87 | the round returns nil exactly when nothing is positive and selection is not forced; otherwise it rolls over the positive table, or over the uniform one when nothing is positive; every row names an option of the pool, and on a drawable pool (no empty forced pool, a table total within `UInt32`) the die can roll |
| Generators.PickWith | Sources/TrashBoat/Core/Generator/Generator.swift:85-86 | the die over the round's table always yields an index into the pool |
| Generators.Step | Sources/TrashBoat/Core/Generator/Generator.swift:58-100 | one call keeps the pool's size and picks an index into it, if anything |
| Generators.Rounds | Sources/TrashBoat/Core/Generator/Generator.swift:106-108 | defined when none of the `count` calls traps, each starting from a drawable snapshot; `count` calls give `count` picks, each an index into the pool |
| Generators.RoundsNext | Sources/TrashBoat/Core/Generator/Generator.swift:106-108 | when one more call does not trap either, it extends the rounds by one step from where they stopped |
| Generators.RoundsDrawablePrefix | Sources/TrashBoat/Core/Generator/Generator.swift:106-108 | a run of calls that does not trap begins with shorter runs that do not trap |
| Generators.RoundsStart | Sources/TrashBoat/Core/Generator/Generator.swift:106-107 | zero calls cannot trap, and they leave the generator as it was, with no results |
| Generators.RoundsDrawableAt | Sources/TrashBoat/Core/Generator/Generator.swift:106-108 | inside a run of calls that does not trap, call `i` starts from a drawable snapshot and the run up to it does not trap |
| Generators.PickIsPositive | Sources/TrashBoat/Core/Generator/Generator.swift:64-69 | when some option is positive, an option of probability 0 is never picked |
| Generators.SinglePositiveIsCertain | Sources/TrashBoat/Core/Generator/Generator.swift:64-86 | with exactly one positive option the round picks it whatever the draw |
| Generators.PickFrequency | Sources/TrashBoat/Core/Generator/Generator.swift:6-9 | on a drawable pool, among the equally likely draws of a round, exactly `probability` of them pick a given positive option: selection is proportional to probability |
| Generators.PickWithIff | Sources/TrashBoat/Core/Generator/Generator.swift:85-92 | on a drawable pool, the round picks option `i` exactly when the die picks the row of `i` |
| Generators.PickWithIndex | Sources/TrashBoat/Core/Generator/Generator.swift:85-92 | the pick is the option named by the row the die picks |
| Generators.RoundBookkeeping | Sources/TrashBoat/Core/Generator/Generator.swift:89-97 | in a round numbered above every earlier pick every option learns the round number; only the picked option reports `hasBeenSelected` and keeps its previous pick as `lastSelectedIndex` |
| Generators.RoundKeepsProbabilitiesNonNegative | Sources/TrashBoat/Core/Generator/Generator.swift:89-97 | a round never makes a non-negative probability negative, whichever bumps run |
| Generators.ExhaustedStaysExhausted | Sources/TrashBoat/Core/Generator/Generator.swift:71-75 | a generator that cannot select stays so: no later call traps, and every one returns nil and changes nothing |
| Generators.AlwaysSelects | Sources/TrashBoat/Core/Generator/Generator.swift:21-22 | with forced selection, on calls that do not trap, every call picks something and advances the round counter by one |
| Generators.ResetBreaksStreaks | Sources/TrashBoat/Core/Generator/Generator.swift:121-130 | after `reset()` the first pick of any option is never counted as consecutive |
| Generators.ResetAll | Sources/TrashBoat/Core/Generator/Generator.swift:127-129 | every option is reset, the pool keeps its size |
| Generators.PoolOdds | Sources/TrashBoat/Core/Generator/Generator.swift:64-69 | the first loop builds exactly the positive table |
| Generators.FallbackOdds | Sources/TrashBoat/Core/Generator/Generator.swift:77-81 | the fallback loop builds exactly the uniform table |
| Generators.RoundTable | Sources/TrashBoat/Core/Generator/Generator.swift:61-82 | the table-building part of `getResult` yields the round's table, or nil |
| Generators.RollRound | Sources/TrashBoat/Core/Generator/Generator.swift:85-86 | the die over the round's table yields the round's pick |
| Generators.Generator.constructor | Sources/TrashBoat/Core/Generator/Generator.swift:27-32 | one fresh option per pair, in order, with that probability and selection and no bump; counter 0, no last pick, selection forced |
| Generators.Generator.WithDrop | Sources/TrashBoat/Core/Generator/Generator.swift:37-42 | one fresh option per triple, with its own bump |
| Generators.Generator.WithGenerator | Sources/TrashBoat/Core/Generator/Generator.swift:47-53 | one fresh option per pair, all sharing the given bump |
| Generators.Generator.UpdatePool | Sources/TrashBoat/Core/Generator/Generator.swift:97 | every option of the pool is updated with the new round number |
| Generators.Generator.GetResult | Sources/TrashBoat/Core/Generator/Generator.swift:58-100 | the new state and the pick are exactly one `Step`; the result is the picked option's item, or nil |
| Generators.Generator.ApplyPick | Sources/TrashBoat/Core/Generator/Generator.swift:88-99 | the counter goes up by one, the pick is recorded, the options are selected and updated as `AfterRound` says, and the picked item is returned |
| Generators.Generator.SelectOption | Sources/TrashBoat/Core/Generator/Generator.swift:92-93 | only the picked option is selected with the new round number |
| Generators.Generator.GetResults | Sources/TrashBoat/Core/Generator/Generator.swift:102-115 | when none of the `count` calls traps, the results are the items of `count` consecutive rounds; with `resetLastSelected` the last pick is cleared afterwards |
| Generators.Generator.RepeatRounds | Sources/TrashBoat/Core/Generator/Generator.swift:106-108 | when none of the `count` calls traps, the loop performs exactly `Rounds`, result `i` being round `i`'s item |
| Generators.Generator.ClearLastSelected | Sources/TrashBoat/Core/Generator/Generator.swift:117-119 | the last pick is forgotten, nothing else changes |
| Generators.Generator.ResetPool | Sources/TrashBoat/Core/Generator/Generator.swift:127-129 | every option is reset |
| Generators.Generator.Reset | Sources/TrashBoat/Core/Generator/Generator.swift:124-130 | the last pick is forgotten and every option reset; the round counter is kept |
| ArrayRandom.GetRandomIndex | Sources/TrashBoat/Utilities/Array+Random.swift:24-33 | on an array of at most `UInt32Max + 1` elements, whose `count - 1` converts to `UInt32`: nil exactly on an empty array; otherwise an index into it |
| ArrayRandom.GetRandom | Sources/TrashBoat/Utilities/Array+Random.swift:11-19 | on an array of at most `UInt32Max + 1` elements, whose `count - 1` converts to `UInt32`: nil exactly on an empty array; otherwise an element of it, the one at the index `getRandomIndex` draws |
| ArrayRandom.RandomSelection | Sources/TrashBoat/Utilities/Array+Random.swift:38-76 | on an array of at most `UInt32Max + 1` elements, whose `count - 1` converts to `UInt32`: both overloads (with a fresh `Xoroshiro` or a copy of the given `RandomGenerator` per draw, either one a stream of draws): nil exactly on an empty array; otherwise as many picks as the array has elements (not `length`), pick `i` being the element at draw `i`, so every pick is an element of the array |
| ArrayRandom.RemoveAt | Sources/TrashBoat/Utilities/Array+Random.swift:87 | `remove(at:)`: one element shorter, the elements before `i` in place, those after it one place forward, and the removed element plus the rest make up the old multiset |
| ArrayRandom.PopRandom | Sources/TrashBoat/Utilities/Array+Random.swift:81-93 | on an array of at most `UInt32Max + 1` elements, whose `count - 1` converts to `UInt32`: nil and the array unchanged exactly when it is empty; otherwise the element at the drawn index is returned and removed |
| ArrayRandom.BlocksAppend | Sources/TrashBoat/Utilities/Array+Random.swift:106-113 | a complete rearrangement of the deck appended to complete blocks keeps them complete blocks |
| ArrayRandom.DealtAppend | Sources/TrashBoat/Utilities/Array+Random.swift:106-113 | complete blocks followed by part of a rearrangement are a dealt sequence |
| ArrayRandom.DealtMembers | Sources/TrashBoat/Utilities/Array+Random.swift:95-97 | every element of a dealt sequence is an element of the array |
| ArrayRandom.DealtBlock | Sources/TrashBoat/Utilities/Array+Random.swift:95-97 | every full block of `|s|` consecutive picks is a rearrangement of the array: no element repeats before the deck is used up |
| ArrayRandom.DealStart | Sources/TrashBoat/Utilities/Array+Random.swift:102-103 | the fresh deck starts the dealing invariant |
| ArrayRandom.DealRefill | Sources/TrashBoat/Utilities/Array+Random.swift:108-110 | refilling an empty deck keeps the invariant, the block just dealt being complete |
| ArrayRandom.DealOne | Sources/TrashBoat/Utilities/Array+Random.swift:112 | moving one card from the deck to the result keeps the invariant |
| ArrayRandom.DealStop | Sources/TrashBoat/Utilities/Array+Random.swift:115 | whatever has been dealt is a dealt sequence of elements of the array |
| ArrayRandom.RandomUniqueSelection | Sources/TrashBoat/Utilities/Array+Random.swift:98-120 | on an array of at most `UInt32Max + 1` elements, whose `count - 1` converts to `UInt32`: nil exactly on an empty array; otherwise `length` picks, made of complete rearrangements of the array followed by part of one |
| PlayerQueues.RotateRight | Sources/TrashBoat/Core/Player/Array+UserProxy.swift:8-14 | the last entry comes first and every other moves one place back |
| PlayerQueues.RotateLeft | Sources/TrashBoat/Core/Player/Array+UserProxy.swift:16-22 | the first entry comes last and every other moves one place forward |
| PlayerQueues.MovedToBack | Sources/TrashBoat/Core/Player/Array+UserProxy.swift:24-31 | entry `index` comes last, those before it stay, those after it move one place forward |
| PlayerQueues.LastToFirst | Sources/TrashBoat/Core/Player/Array+UserProxy.swift:11-14 | `removeLast` then `insert(at: 0)` rotates the queue right |
| PlayerQueues.FirstToLast | Sources/TrashBoat/Core/Player/Array+UserProxy.swift:19-22 | `removeFirst` then `append` rotates the queue left |
| PlayerQueues.PushToLast | Sources/TrashBoat/Core/Player/Array+UserProxy.swift:27-31 | `remove(at:)` then `append` moves entry `index` to the back |
| PlayerQueues.RotationsAreInverse | Sources/TrashBoat/Core/Player/Array+UserProxy.swift:11-22 | `lastToFirst` and `firstToLast` undo each other, in either order |
| PlayerQueues.RotationsArePermutations | Sources/TrashBoat/Core/Player/Array+UserProxy.swift:11-31 | no move adds, loses or duplicates a player |
| PlayerQueues.RotateLeftIsMoveFirst | Sources/TrashBoat/Core/Player/Array+UserProxy.swift:19-31 | `firstToLast` is `pushToLast(index: 0)` |
| PlayerQueues.FullTurn | Sources/TrashBoat/Core/Player/Array+UserProxy.swift:19-22 | after `k` moves of the first player to the back, the queue starts at its old position `k` and wraps round |
| PlayerQueues.FullTurnRestores | Sources/TrashBoat/Core/Player/Array+UserProxy.swift:19-22 | one move per player brings the queue back to where it started |
| Items.Item.Clone | Sources/TrashBoat/Core/Items/ItemRepresentible.swift:26-27 | a new instance with every property of the item |
| Items.ClonesAppend | Sources/TrashBoat/Core/Items/ItemRepresentible.swift:26-27 | clones of two lists, joined, are clones of the joined lists |
| Items.CloneAll | Sources/TrashBoat/Core/Items/ItemRepresentible.swift:26-27 | one new instance per item, in order, each a copy |
| DiceItems.DrawOf | Sources/TrashBoat/Core/Dice/DiceItem.swift:76-80 | the draw each die of the set is given is one that die accepts |
| DiceItems.RollAll | Sources/TrashBoat/Core/Dice/DiceItem.swift:76-82 | every die is rolled once with its own draw, in order, and stays rollable |
| DiceItems.ResetAll | Sources/TrashBoat/Core/Dice/DiceItem.swift:93-99 | every die is reset |
| DiceItems.RollState | Sources/TrashBoat/Core/Dice/DiceItem.swift:67-87 | a cursed item sets its result to 0 and changes nothing else; otherwise the dice are rolled, the result is the total of their values and `hasResult` is set; name, description and curse never change |
| DiceItems.ResetState | Sources/TrashBoat/Core/Dice/DiceItem.swift:90-102 | no result, result 0 and every die reset; name, description and curse kept |
| DiceItems.DiceItem.constructor | Sources/TrashBoat/Core/Dice/DiceItem.swift:52-56 | the given name, description and dice, no result, result 0, not cursed |
| DiceItems.DiceItem.Clone | Sources/TrashBoat/Core/Dice/DiceItem.swift:59-63 | a new dice item with the same name, description, dice and curse, and no result |
| DiceItems.DiceItem.GetResult | Sources/TrashBoat/Core/Dice/DiceItem.swift:34 | the stored result: the value `roll()` returns, and 0 after `init` and `reset()` |
| DiceItems.DiceItem.GetFullName | Sources/TrashBoat/Core/Dice/DiceItem.swift:107-109 | the name followed by " Dice": the name is a prefix and five characters more |
| DiceItems.DiceItem.Roll | Sources/TrashBoat/Core/Dice/DiceItem.swift:67-87 | the item's fields become `RollState` of the old ones and the returned value is the new result, the one `getResult` returns |
| DiceItems.DiceItem.Reset | Sources/TrashBoat/Core/Dice/DiceItem.swift:90-102 | the item's fields become `ResetState` of the old ones |
| DiceItems.RollKeepsKinds | Sources/TrashBoat/Core/Dice/DiceItem.swift:76-82 | rolling never changes what the dice are, so they can be rolled again |
| DiceItems.RollRecordsValues | Sources/TrashBoat/Core/Dice/DiceItem.swift:76-82 | every die but a weighted one shows its rolled value afterwards; a weighted die still has no result |
| DiceItems.TotalBounds | Sources/TrashBoat/Core/Dice/DiceItem.swift:76-84 | the total of range and constant dice lies between the sums of their lower and upper bounds |
| DiceItems.ResetUndoesRoll | Sources/TrashBoat/Core/Dice/DiceItem.swift:67-102 | a cursed item rolls 0 without touching its dice; a reset after a roll is the reset alone, and resetting twice is resetting once |
| DiceItems.RollItemSet | Sources/TrashBoat/Core/Dice/DiceItem.swift:121-144 | nil, with nothing rolled, exactly when some entry holds an item that is not a dice item; otherwise the same players in order with their dice items, each rolled once |
| InventoryStacks.NewStack | Sources/TrashBoat/Core/Items/InventoryStack.swift:45-51 | a new stack holds just the item, is limited, agrees with the item and is valid |
| InventoryStacks.IndexOf | Sources/TrashBoat/Core/Items/InventoryStack.swift:122-129 | nil exactly when the instance is not held; otherwise the position of its first occurrence |
| InventoryStacks.StackCards | Sources/TrashBoat/Core/Items/InventoryStack.swift:193-200 | a stackable stack shows one card, its first item's; otherwise one card per item, in order |
| InventoryStacks.StackInfo | Sources/TrashBoat/Core/Items/InventoryStack.swift:219-225 | a stackable stack gives one entry, its first item with the whole count; otherwise one entry per item with count 1 |
| InventoryStacks.TakeFirst | Sources/TrashBoat/Core/Items/InventoryStack.swift:137-160 | nil exactly from an empty stack; an unlimited stack hands out a fresh clone of its first item and is unchanged; a limited one hands out its first item and loses it |
| InventoryStacks.TakeRandom | Sources/TrashBoat/Core/Items/InventoryStack.swift:165-187 | on a stack of at most `UInt32Max + 1` items, whose `count - 1` converts to `UInt32`: nil exactly from an empty stack; an unlimited stack hands out a fresh clone of the drawn item and is unchanged; a limited one hands out the drawn item and loses it |
| InventoryStacks.InventoryStack.constructor | Sources/TrashBoat/Core/Items/InventoryStack.swift:45-51 | the stack is `NewStack` of the item |
| InventoryStacks.InventoryStack.IsEmpty | Sources/TrashBoat/Core/Items/InventoryStack.swift:36-39 | true exactly when no item is held |
| InventoryStacks.InventoryStack.Add | Sources/TrashBoat/Core/Items/InventoryStack.swift:60-78 | true exactly when the item agrees with the stack on name, type, description and stackability and the instance is not already held; the stack becomes `Added` |
| InventoryStacks.InventoryStack.CloneStack | Sources/TrashBoat/Core/Items/InventoryStack.swift:97-99 | a fresh copy of every item, in order |
| InventoryStacks.InventoryStack.Remove | Sources/TrashBoat/Core/Items/InventoryStack.swift:120-132 | nil exactly when the instance is not held; otherwise that instance, which is taken out |
| InventoryStacks.InventoryStack.RemoveFirstItem | Sources/TrashBoat/Core/Items/InventoryStack.swift:137-160 | as `TakeFirst`, on the object |
| InventoryStacks.InventoryStack.RemoveRandomItem | Sources/TrashBoat/Core/Items/InventoryStack.swift:165-187 | on a stack of at most `UInt32Max + 1` items, whose `count - 1` converts to `UInt32`: as `TakeRandom`, on the object |
| InventoryStacks.AddKeepsValid | Sources/TrashBoat/Core/Items/InventoryStack.swift:53-78 | an accepted item is appended, so the stack grows by one and stays valid; a refused item changes nothing |
| InventoryStacks.CompareHeld | Sources/TrashBoat/Core/Items/InventoryStack.swift:72-74 | an item already held agrees with the stack and adding it again changes nothing |
| InventoryStacks.RemoveKeepsValid | Sources/TrashBoat/Core/Items/InventoryStack.swift:120-132 | removing keeps the stack valid and takes away just that instance, one item fewer; an instance not held changes nothing |
| InventoryStacks.RemoveAtDistinct | Sources/TrashBoat/Core/Items/InventoryStack.swift:126 | removing the item at a position leaves a valid stack without that instance |
| InventoryStacks.RemoveFirstCount | Sources/TrashBoat/Core/Items/InventoryStack.swift:137-160 | an unlimited or empty stack is unchanged, a limited one loses one item; the stack stays valid and its details never change |
| InventoryStacks.RemoveRandomCount | Sources/TrashBoat/Core/Items/InventoryStack.swift:165-187 | the same count rules for a random item |
| InventoryStacks.StackInfoTotal | Sources/TrashBoat/Core/Items/InventoryStack.swift:215-225 | the counts of the stack information add up to the stack's count, and every entry names a held item |
| InventoryStacks.OnesTotal | Sources/TrashBoat/Core/Items/InventoryStack.swift:223 | entries of count 1 add up to the number of items |
| InventoryStacks.StackEqualIsEquivalence | Sources/TrashBoat/Core/Items/InventoryStack.swift:232-241 | `==` is reflexive, symmetric and transitive, and two stacks differing only in their items are equal exactly when they hold as many |
| Inventories.FindName | Sources/TrashBoat/Core/Items/Inventory.swift:55-63 | nil exactly when no stack of the list has the name; otherwise a stack with that name |
| Inventories.AddAllStart | Sources/TrashBoat/Core/Items/Inventory.swift:43-45 | before any item the table is as it was |
| Inventories.AddAllStep | Sources/TrashBoat/Core/Items/Inventory.swift:45-70 | each further item is added to the table the earlier ones left |
| Inventories.Occupied | Sources/TrashBoat/Core/Items/Inventory.swift:134-138 | the stacks `cloneItems` copies are stacks of the list with at least one item, no more of them than stacks |
| Inventories.KeptStacks | Sources/TrashBoat/Core/Items/Inventory.swift:303-308 | the stacks `removeAllItems` leaves are all kept ones, no more of them than stacks |
| Inventories.FirstEqual | Sources/TrashBoat/Core/Items/Inventory.swift:316 | `index(of:)`: nil exactly when no stack is `==` to the given one; otherwise a stack `==` to it |
| Inventories.Inventory.constructor | Sources/TrashBoat/Core/Items/Inventory.swift:25 | no item types, no transactions, a valid inventory |
| Inventories.Inventory.AddItemType | Sources/TrashBoat/Core/Items/Inventory.swift:32-38 | the table becomes `WithType`: an empty list for a type that is not there yet; a valid inventory stays valid |
| Inventories.Inventory.AddItems | Sources/TrashBoat/Core/Items/Inventory.swift:43-71 | the table becomes `AddAll` of the items: each into the stack of its name under its type, or a new stack at the end, the type created if needed; a valid inventory stays valid |
| Inventories.Inventory.ModifyStack | Sources/TrashBoat/Core/Items/Inventory.swift:76-90 | the type is created if absent and every stack of the item's name gets the new `isUnlimited`; a valid inventory stays valid |
| Inventories.Inventory.HasItem | Sources/TrashBoat/Core/Items/Inventory.swift:97-112 | true exactly when the item's type is there and one of its stacks has the item's name |
| Inventories.Inventory.CloneItems | Sources/TrashBoat/Core/Items/Inventory.swift:125-142 | nil exactly for a missing type; otherwise one list of fresh copies per occupied stack, in stack order |
| Inventories.Inventory.RemoveItem | Sources/TrashBoat/Core/Items/Inventory.swift:170-197 | nil and no change when no type has the name or the type has no stack of the item's name; otherwise one item is taken as `removeFirstItem` does and the stack dropped if that emptied it; a valid inventory stays valid |
| Inventories.Inventory.RemoveAllItems | Sources/TrashBoat/Core/Items/Inventory.swift:294-325 | nil and no change for a missing type; otherwise fresh copies of the items of every stack taken away, in order, and only the kept stacks left; a valid inventory stays valid |
| Inventories.Inventory.ClearAll | Sources/TrashBoat/Core/Items/Inventory.swift:330-334 | no items and no transactions, a valid inventory |
| Inventories.FindsCurrent | Sources/TrashBoat/Core/Items/Inventory.swift:316 | while `removeAllItems` walks the stacks, `index(of:)` finds the current stack itself, right after the kept ones |
| Inventories.RemoveStacks | Sources/TrashBoat/Core/Items/Inventory.swift:300-320 | the loop leaves exactly the kept stacks and returns fresh copies of the others' items, in order |
| Inventories.DropStack | Sources/TrashBoat/Core/Items/Inventory.swift:309-318 | a stack that goes has its items copied onto the results and is taken out of the list |
| Inventories.WalkStart | Sources/TrashBoat/Core/Items/Inventory.swift:300-301 | the walk starts with the whole list and no results |
| Inventories.WalkKeep | Sources/TrashBoat/Core/Items/Inventory.swift:306-307 | a stack that stays keeps the walk's invariant |
| Inventories.WalkDrop | Sources/TrashBoat/Core/Items/Inventory.swift:309-318 | a stack that goes is found by `index(of:)` and its removal keeps the walk's invariant |
| Inventories.WalkStop | Sources/TrashBoat/Core/Items/Inventory.swift:322-324 | at the end the list is the kept stacks and the results copy the dropped items |
| Inventories.RemoveAllStep | Sources/TrashBoat/Core/Items/Inventory.swift:303-318 | one more stack walked: a kept stack moves to the kept part; one that goes is the stack `index(of:)` finds and its items join the dropped ones |
| Inventories.RemoveAtJoin | Sources/TrashBoat/Core/Items/Inventory.swift:317 | removing the stack right after the kept ones leaves the kept ones and the rest |
| Inventories.AddItemTypeIdempotent | Sources/TrashBoat/Core/Items/Inventory.swift:32-38 | adding a type twice is adding it once; it never changes the stacks of a type already there, and keeps the inventory valid |
| Inventories.AddOneValid | Sources/TrashBoat/Core/Items/Inventory.swift:45-70 | adding one item keeps the inventory valid (within a type no two stacks share a name) and the item's name is then held; other types are unchanged |
| Inventories.AddAllValid | Sources/TrashBoat/Core/Items/Inventory.swift:43-71 | adding any items keeps the inventory valid, holds each of their names under its type and loses no type |
| Inventories.AddOneKeepsHas | Sources/TrashBoat/Core/Items/Inventory.swift:45-70 | adding an item never loses a name the inventory held |
| Inventories.SetUnlimitedValid | Sources/TrashBoat/Core/Items/Inventory.swift:76-90 | `modifyStack` keeps the inventory valid, loses no name, and every stack of the item's name has the new `isUnlimited` |
| Inventories.LimitedCountJoin | Sources/TrashBoat/Core/Items/Inventory+Stats.swift:68-72 | the count over two lists of stacks is the sum of their counts |
| Inventories.LimitedCountUpdate | Sources/TrashBoat/Core/Items/Inventory+Stats.swift:68-72 | replacing or removing one stack changes the count by that stack's contribution |
| Inventories.RemoveStackValid | Sources/TrashBoat/Core/Items/Inventory.swift:184-186 | dropping a stack keeps a list valid |
| Inventories.ReplaceStackValid | Sources/TrashBoat/Core/Items/Inventory.swift:181-189 | a valid non-empty stack of the same name and type in place of another keeps the list valid |
| Inventories.TakeValid | Sources/TrashBoat/Core/Items/Inventory.swift:170-197 | `removeItem` keeps the inventory valid; taking from an unlimited stack changes nothing, from a limited one lowers the type's item count by exactly one; an absent name changes nothing |
| Inventories.KeptExactly | Sources/TrashBoat/Core/Items/Inventory.swift:288-325 | with `includeUnlimitedStack` false exactly the unlimited stacks stay; with it true none does |
| Inventories.KeptValid | Sources/TrashBoat/Core/Items/Inventory.swift:294-325 | the stacks `removeAllItems` leaves are a valid list of stacks the type had |
| InventoryStats.CardTitle | Sources/TrashBoat/Core/Items/Inventory+Stats.swift:35-47 | an unlimited stack keeps the item's title; a limited one with no template gets "  (You have N)" appended |
| InventoryStats.NumberedCards | Sources/TrashBoat/Core/Items/Inventory+Stats.swift:25-33 | one card per card of the stack, each with the id one more than the stack's position |
| InventoryStats.GetItemCount | Sources/TrashBoat/Core/Items/Inventory+Stats.swift:63-75 | 0 for a missing type; otherwise the sum of the counts of the limited stacks |
| InventoryStats.GetInlineCards | Sources/TrashBoat/Core/Items/Inventory+Stats.swift:16-57 | nil exactly for a missing type; otherwise the cards of every stack in order, numbered and retitled |
| InventoryStats.TypeCardsStep | Sources/TrashBoat/Core/Items/Inventory+Stats.swift:22-54 | one more stack appends that stack's cards |
| InventoryStats.TypeCardsPrefix | Sources/TrashBoat/Core/Items/Inventory+Stats.swift:22-54 | the cards of the first stacks start the cards of them all |
| InventoryStats.CardPlacement | Sources/TrashBoat/Core/Items/Inventory+Stats.swift:22-33 | the cards of stack `i` sit together, in order, right after those of the stacks before it, each with the id `i + 1` |
| InventoryStats.TitleTemplates | Sources/TrashBoat/Core/Items/Inventory+Stats.swift:38-42 | a template without placeholders is the title as it is; "$name" gives the item's title; "$count" gives the count |
| InventoryStats.AddOneCount | Sources/TrashBoat/Core/Items/Inventory+Stats.swift:59-75 | after adding one item the type's count grows by one for a new stack or an item accepted into a limited stack, and by nothing otherwise |
| Texts.Decimal | Sources/TrashBoat/Core/Items/Inventory+Stats.swift:41 | a natural number renders as a non-empty string of decimal digits |
| Texts.DecimalRoundTrip | Sources/TrashBoat/Core/Items/Inventory+Stats.swift:41 | reading a rendered number back gives the number |
| Texts.DecimalInjective | Sources/TrashBoat/Core/Items/Inventory+Stats.swift:41 | different numbers render differently |
| Texts.ReplaceAbsent | Sources/TrashBoat/Core/Items/Inventory+Stats.swift:40-41 | replacing a pattern that does not occur leaves the string as it is |
| Texts.ReplaceWhole | Sources/TrashBoat/Core/Items/Inventory+Stats.swift:40-41 | the pattern alone becomes the replacement |
| Texts.ReplacePrefix | Sources/TrashBoat/Core/Items/Inventory+Stats.swift:40-41 | an occurrence at the start is replaced and the scan goes on after it |
| Texts.JoinLength | Sources/TrashBoat/Core/Reward/Reward.swift:189-198 | joining adds one separator between each pair of neighbours and nothing else |
| Texts.JoinPlacement | Sources/TrashBoat/Core/Reward/Reward.swift:189-198 | each part sits in the joined string after the parts before it and one separator per part before it |
| Rewards.TotalRemove | Sources/TrashBoat/Core/Reward/Reward.swift:33 | the group sizes can be added in any key order: any key can be counted first |
| Rewards.TotalUpdate | Sources/TrashBoat/Core/Reward/Reward.swift:33 | replacing one group changes the total by the difference of the two groups' sizes |
| Rewards.LastIndex | Sources/TrashBoat/Core/Reward/Reward.swift:68-81 | the position of an item with the full name after which no item has it |
| Rewards.WithName | Sources/TrashBoat/Core/Reward/Reward.swift:68-81 | a full name no item has collects no items |
| Rewards.AsWrittenStart | Sources/TrashBoat/Core/Reward/Reward.swift:65 | the loop starts from the given groups |
| Rewards.GroupedStart | Sources/TrashBoat/Core/Reward/Reward.swift:65 | the intended grouping starts from the given groups too |
| Rewards.NamesStep | Sources/TrashBoat/Core/Reward/Reward.swift:68 | one more item adds its full name to the names seen |
| Rewards.LastIndexStep | Sources/TrashBoat/Core/Reward/Reward.swift:68-81 | the new item is the last with its name; every other name keeps its last position |
| Rewards.WithNameStep | Sources/TrashBoat/Core/Reward/Reward.swift:68-81 | one more item joins the items of its name, at the end |
| Rewards.SameKeysStep | Sources/TrashBoat/Core/Reward/Reward.swift:71-80 | writing the item's full name keeps the keys the old keys and the names seen |
| Rewards.KeepsUnmentionedStep | Sources/TrashBoat/Core/Reward/Reward.swift:75-80 | writing one key keeps every group no item has named unchanged |
| Rewards.LastOnlyStep | Sources/TrashBoat/Core/Reward/Reward.swift:71-80 | after each item the group of its name is the `items` group (when the original set has the key) and that item, overwriting what an earlier item of the name wrote |
| Rewards.AllAppendedStep | Sources/TrashBoat/Core/Reward/Reward.swift:63-85 | appending each item to the group being built keeps every group the old one followed by all items of its name so far |
| Rewards.AsWrittenStep | Sources/TrashBoat/Core/Reward/Reward.swift:68-81 | one iteration of the loop as written keeps its invariant |
| Rewards.GroupedStep | Sources/TrashBoat/Core/Reward/Reward.swift:63-85 | one iteration of the intended loop keeps its invariant |
| Rewards.Reward.constructor | Sources/TrashBoat/Core/Reward/Reward.swift:39 | no point entries, no groups, no generators |
| Rewards.Reward.WithCurrency | Sources/TrashBoat/Core/Reward/Reward.swift:44-46 | exactly one point entry, the type with its range, and no items or generators |
| Rewards.Reward.WithItems | Sources/TrashBoat/Core/Reward/Reward.swift:51-53 | no points or generators, and the items grouped as `addItems` groups them into the empty set while `items` is still empty |
| Rewards.Reward.WithRandomItems | Sources/TrashBoat/Core/Reward/Reward.swift:58-60 | the generators, and nothing else |
| Rewards.Reward.HasNoReward | Sources/TrashBoat/Core/Reward/Reward.swift:21-27 | true exactly when there are no point entries, no item groups and no generators |
| Rewards.Reward.ItemCount | Sources/TrashBoat/Core/Reward/Reward.swift:30-37 | the total size of all item groups plus the number of generators |
| Rewards.Reward.AddItems | Sources/TrashBoat/Core/Reward/Reward.swift:63-85 | as written: every old key and every incoming full name is a key; a group no item names is unchanged; a named group is the `items` group (when the set had the key) followed by only the last incoming item of that name |
| Rewards.Reward.ApplyReward | Sources/TrashBoat/Core/Reward/Reward.swift:187-199 | every player's message in order, joined by line breaks, with none after the last |
| Rewards.Messages | Sources/TrashBoat/Core/Reward/Reward.swift:190-191 | one message per player, in order |
| Rewards.AddItemsCorrected | Sources/TrashBoat/Core/Reward/Reward.swift:63-85 | as intended: every group is its old contents followed by all incoming items of its name, so the total grows by the number of incoming items |
| Rewards.NothingToGive | Sources/TrashBoat/Core/Reward/Reward.swift:20-37 | a reward with nothing to give counts no items; conversely, when no group is empty, no points and no counted items mean nothing to give |
| Rewards.InitGroupsHoldOne | Sources/TrashBoat/Core/Reward/Reward.swift:51-53 | `init(withItems:)` has one key per full name and each group holds one item, the last incoming item of that name |
| Rewards.DuplicatesCollapse | Sources/TrashBoat/Core/Reward/Reward.swift:68-81 | two items of the same full name given to `init(withItems:)` leave one group holding only the second: the reward counts one item |
| Rewards.DuplicatesKept | Sources/TrashBoat/Core/Reward/Reward.swift:63-85 | grouped as intended, the same two items form one group of two |
| Rewards.PairNames | Sources/TrashBoat/Core/Reward/Reward.swift:68-81 | two items of one full name have that one name, the second is the last with it, and both carry it |
| Players.ListText | Sources/TrashBoat/Core/Player/UserProxy.swift:84-104 | the loop builds exactly the list text: "" for none, the name alone for one, names joined by ", " with " and " before the last otherwise |
| Players.FirstNames | Sources/TrashBoat/Core/Player/UserProxy.swift:86-101 | the first names of the proxies, in order |
| Players.PlayerNames | Sources/TrashBoat/Core/Player/Player.swift:166-181 | the names of the players, in order |
| Players.ProxyListText | Sources/TrashBoat/Core/Player/UserProxy.swift:82-105 | the list text of the proxies' first names |
| Players.PlayerListText | Sources/TrashBoat/Core/Player/Player.swift:162-185 | the list text of the players' names |
| Players.PlayerEqual | Sources/TrashBoat/Core/Player/Player.swift:153-157 | two players are `==` exactly when their Telegram IDs are equal |
| Players.ListedShort | Sources/TrashBoat/Core/Player/UserProxy.swift:84-96 | no names give "", one name gives that name, two give "A and B" |
| Players.ListedThree | Sources/TrashBoat/Core/Player/Player.swift:166-182 | three names give "A, B and C" |
| Players.NameAppears | Sources/TrashBoat/Core/Player/UserProxy.swift:86-102 | every name appears in the list text, at its position |
| Players.NamesInOrder | Sources/TrashBoat/Core/Player/Player.swift:166-182 | the names appear in input order, each ending before the next one starts |
| Players.PlayerEqualIsEquivalence | Sources/TrashBoat/Core/Player/Player.swift:153-157 | `==` on players is reflexive, symmetric and transitive and ignores the name |
| Points.NewReceipt | Sources/TrashBoat/Core/Points/PointReceipt.swift:29-34 | the type and the amounts before and after stored as given, the change as the difference, and no units |
| Points.UnitReceipt | Sources/TrashBoat/Core/Points/PointReceipt.swift:39-77 | the type, amounts and units stored as given; the difference is the sum of the units' values, never negated, and 0 for no units |
| Points.UnitsTotalJoin | Sources/TrashBoat/Core/Points/PointReceipt.swift:65-67 | the units' total splits over a concatenation, so a receipt of several units is the sum of their receipts |
| Points.PointContainer.constructor | Sources/TrashBoat/Core/Points/PointContainer.swift:19-22 | the given type and initial amount |
| Points.PointContainer.ChangeAmount | Sources/TrashBoat/Core/Points/PointContainer.swift:27-39 | the amount becomes the old one plus the change, raised to 0 unless the type allows negative values; the receipt holds the amounts before and after and their difference |
| Points.ContainerEqualIsEquivalence | Sources/TrashBoat/Core/Points/PointContainer.swift:41-46 | `==` on containers is reflexive, symmetric and transitive; containers of different amounts, or of types that are not `==`, are never equal |
| Points.ChangeAmountEffects | Sources/TrashBoat/Core/Points/PointContainer.swift:29-38 | with negatives disallowed the amount is never negative; with them allowed it is exactly old plus change; the receipt's difference is the change asked for unless the amount was raised to 0, when it is minus the old amount |
| Points.EqualTypesHashAlike | Sources/TrashBoat/Core/Points/PointType.swift:25-27 | point types that are `==` (same name and symbol) have the same `hashValue` |
| Points.TypeEqualIsEquivalence | Sources/TrashBoat/Core/Points/PointType.swift:43-48 | `==` on point types is reflexive, symmetric and transitive, holds exactly when name and symbol agree, and ignores the plural name, the instance type and the sign rule |
| Points.FirstOfType | Sources/TrashBoat/Core/Points/PointManager.swift:27-33 | nil exactly when no instance has an equal type; otherwise an instance of an equal type |
| Points.FirstNamed | Sources/TrashBoat/Core/Points/PointManager.swift:42-48 | nil exactly when no instance's type has the name; otherwise an instance whose type has it |
| Points.FirstOfTypeAt | Sources/TrashBoat/Core/Points/PointManager.swift:27-33 | the search stops at the first instance of an equal type |
| Points.FirstNamedAt | Sources/TrashBoat/Core/Points/PointManager.swift:42-48 | the search stops at the first instance whose type has the name |
| Points.Applied | Sources/TrashBoat/Core/Points/PointManager.swift:73-77 | every instance of an equal type is given the amount and the others are unchanged, the container keeping its length |
| Points.PointManager.constructor | Sources/TrashBoat/Core/Points/PointManager.swift:20 | no instances and no receipts |
| Points.PointManager.ValueOf | Sources/TrashBoat/Core/Points/PointManager.swift:25-35 | the value of the first instance whose type is `==` to the argument, or nil when there is none |
| Points.PointManager.ValueNamed | Sources/TrashBoat/Core/Points/PointManager.swift:40-50 | the value of the first instance whose type has the name, or nil when there is none |
| Points.PointManager.HasType | Sources/TrashBoat/Core/Points/PointManager.swift:56-64 | true exactly when some instance has an equal type |
| Points.PointManager.Add | Sources/TrashBoat/Core/Points/PointManager.swift:70-82 | every instance of an equal type is given the amount, and then a new instance with the amount is appended whether or not the type was held; receipts unchanged |
| Points.PointManager.Deduct | Sources/TrashBoat/Core/Points/PointManager.swift:88-112 | the same as `add` with the amount negated |
| Points.PointManager.Clear | Sources/TrashBoat/Core/Points/PointManager.swift:117-120 | no instances and no receipts |
| Points.AddGrowsByOne | Sources/TrashBoat/Core/Points/PointManager.swift:70-82 | `add` always grows the container by exactly one, and the type is then held |
| Points.AddKeepsFirstInstance | Sources/TrashBoat/Core/Points/PointManager.swift:66-82 | adding a type already held leaves two instances of it: the subscript still finds the old one, given the amount |
| Flairs.NewFlair | Sources/TrashBoat/Core/Flair/Flair.swift:49-53 | the name and category given; empty payload, no flags, no action, `allowStacks` and `triggerSimultaneously` false |
| Flairs.NewStackingFlair | Sources/TrashBoat/Core/Flair/Flair.swift:58-67 | the name, category and `allowStacks` given; the payload when one is given, otherwise empty; no flags, no action, not simultaneous |
| Flairs.NewActionFlair | Sources/TrashBoat/Core/Flair/Flair.swift:80-93 | the flags and the action are kept, but the `allowStacks` and `triggerSimultaneously` arguments are dropped: both stay false |
| Flairs.AnyFlagHeld | Sources/TrashBoat/Core/Flair/Flair.swift:103-113 | true exactly when some input flag is one of the flair's flags |
| Flairs.Trigger | Sources/TrashBoat/Core/Flair/Flair.swift:99-116 | a response exactly when the flair has an action and some input flag is one of its flags; the response is what the action answers |
| Flairs.FlagsEqual | Sources/TrashBoat/Core/Flair/Flair.swift:130-133 | flag lists of equal length agree at every position exactly when they are equal |
| Flairs.Equal | Sources/TrashBoat/Core/Flair/Flair.swift:122-136 | `==` holds exactly when name, category, flags, `allowStacks` and `triggerSimultaneously` agree; payload and action play no part |
| Flairs.EqualIsEquivalence | Sources/TrashBoat/Core/Flair/Flair.swift:122-136 | `==` is reflexive, symmetric and transitive |
| Flairs.EqualHashesAlike | Sources/TrashBoat/Core/Flair/Flair.swift:39-41 | equal flairs have equal `hashValue` |
| Flairs.EqualIgnoresPayloadAndAction | Sources/TrashBoat/Core/Flair/Flair.swift:122-136 | changing the payload or the action never changes `==` |
| Flairs.PlainFlairsEqual | Sources/TrashBoat/Core/Flair/Flair.swift:49-53 | two plain flairs are equal exactly when their names and categories agree |
| Flairs.FlaglessNeverTriggers | Sources/TrashBoat/Core/Flair/Flair.swift:99-116 | a flair without flags never responds |
| FlairStacks.FirstState | Sources/TrashBoat/Core/Flair/FlairStack.swift:37-44 | a new stack holds just its first flair, copies its name, category and both switches, and is valid |
| FlairStacks.CompareFlair | Sources/TrashBoat/Core/Flair/FlairStack.swift:88-92 | true exactly when the flair is `==` to the stack's first one |
| FlairStacks.TriggerStack | Sources/TrashBoat/Core/Flair/FlairStack.swift:97-139 | the loops leave exactly the flairs `Triggered` keeps, and nothing else of the stack changes |
| FlairStacks.RemoveIndexes | Sources/TrashBoat/Core/Flair/FlairStack.swift:135-137 | removing positions highest first removes exactly those positions, the rest keeping their order |
| FlairStacks.FlairStack.constructor | Sources/TrashBoat/Core/Flair/FlairStack.swift:37-44 | the stack is `FirstState` of the flair |
| FlairStacks.FlairStack.FromParts | Sources/TrashBoat/Core/Flair/FlairStack.swift:49-61 | the name, category, switches and flairs given |
| FlairStacks.FlairStack.AddState | Sources/TrashBoat/Core/Flair/FlairStack.swift:66-77 | the flair is appended only when stacking is allowed and it agrees on name, category and both switches; otherwise nothing changes |
| FlairStacks.FlairStack.RemoveFirst | Sources/TrashBoat/Core/Flair/FlairStack.swift:79-83 | one flair fewer from the front, or nothing on an empty stack |
| FlairStacks.FlairStack.CompareFlair | Sources/TrashBoat/Core/Flair/FlairStack.swift:88-92 | on a non-empty stack, true exactly when the flair is `==` to the first one |
| FlairStacks.FlairStack.Trigger | Sources/TrashBoat/Core/Flair/FlairStack.swift:97-139 | the flairs become `Triggered`: the first alone is asked unless simultaneous; `removeAll` empties the stack, `removeSelf` drops the flair that answered it |
| FlairStacks.FlairStack.Copy | Sources/TrashBoat/Core/Flair/FlairStack.swift:144-154 | a new stack with the same name, category, switches and flairs |
| FlairStacks.WithoutMember | Sources/TrashBoat/Core/Flair/FlairStack.swift:135-137 | a flair survives the removal exactly when it sits at a position not removed |
| FlairStacks.WithoutSame | Sources/TrashBoat/Core/Flair/FlairStack.swift:135-137 | only the positions inside the stack matter to the removal |
| FlairStacks.WithoutNone | Sources/TrashBoat/Core/Flair/FlairStack.swift:135-137 | removing no position inside the stack leaves it whole |
| FlairStacks.RemoveBelow | Sources/TrashBoat/Core/Flair/FlairStack.swift:127-137 | removing a position below all those removed before removes the element at that same position of what is left: descending order is safe |
| FlairStacks.OperationsKeepValid | Sources/TrashBoat/Core/Flair/FlairStack.swift:66-139 | adding, removing the first flair and triggering keep every flair agreeing with the stack |
| FlairStacks.WithoutLength | Sources/TrashBoat/Core/Flair/FlairStack.swift:135-137 | removing positions never lengthens the stack |
| FlairStacks.AddStateCount | Sources/TrashBoat/Core/Flair/FlairStack.swift:66-77 | `addState` grows the stack by one exactly when it accepts the flair and keeps the flairs already there in front |
| FlairStacks.SimultaneousKeeps | Sources/TrashBoat/Core/Flair/FlairStack.swift:117-138 | asking all flairs with no `removeAll` answer keeps exactly the flairs that did not answer `removeSelf` |
| FlairStacks.QuietTriggerKeepsStack | Sources/TrashBoat/Core/Flair/FlairStack.swift:97-139 | when no flair responds, triggering changes nothing in either mode |
| FlairStacks.EqualIgnoresContents | Sources/TrashBoat/Core/Flair/FlairStack.swift:144-165 | a copy, or any stack of other flairs with the same switches, is `==` to the original: `==` ignores the flairs held |
| FlairManagers.FindStack | Sources/TrashBoat/Core/Flair/FlairManager.swift:78 | `first(where:)` by name: nil exactly when no stack has the name; otherwise a stack with it |
| FlairManagers.FirstEqual | Sources/TrashBoat/Core/Flair/FlairManager.swift:169 | `index(where:)` by `==`: nil exactly when no stack is `==` to the given one; otherwise one that is |
| FlairManagers.TriggeredAll | Sources/TrashBoat/Core/Flair/FlairManager.swift:189-191 | every stack of a category triggered, in place |
| FlairManagers.FlairManager.constructor | Sources/TrashBoat/Core/Flair/FlairManager.swift:16 | no categories |
| FlairManagers.FlairManager.CategoryNames | Sources/TrashBoat/Core/Flair/FlairManager.swift:22-41 | nil exactly for a missing category; otherwise the names of its stacks in order, all different |
| FlairManagers.FlairManager.AddFlair | Sources/TrashBoat/Core/Flair/FlairManager.swift:47-51 | a plain flair of the name and category is added as `addToList` adds it |
| FlairManagers.FlairManager.AddFlairs | Sources/TrashBoat/Core/Flair/FlairManager.swift:57-62 | the flairs are added one after another, keeping the manager valid |
| FlairManagers.FlairManager.AddToList | Sources/TrashBoat/Core/Flair/FlairManager.swift:67-88 | the category is created if missing; a stack of the flair's name is offered the flair (and may refuse it), otherwise a new stack of it is appended; the manager stays valid |
| FlairManagers.FlairManager.FindFlair | Sources/TrashBoat/Core/Flair/FlairManager.swift:94-109 | true exactly when the flair's category is there and has a stack of its name, or, with `compareContents`, a stack whose first flair is `==` to it |
| FlairManagers.FlairManager.FindFlairWithName | Sources/TrashBoat/Core/Flair/FlairManager.swift:115-126 | as written: true exactly when the table has a category named like the flair and a stack of that name in it |
| FlairManagers.FlairManager.FindFlairWithNameCorrected | Sources/TrashBoat/Core/Flair/FlairManager.swift:111-126 | as documented: true exactly when the category has a stack of that name |
| FlairManagers.FlairManager.RemoveFlair | Sources/TrashBoat/Core/Flair/FlairManager.swift:133-137 | removal against a plain flair of that name and category |
| FlairManagers.FlairManager.RemoveFromList | Sources/TrashBoat/Core/Flair/FlairManager.swift:150-177 | nothing changes unless the category has a stack of the flair's name whose first flair is `==` to it; then one flair is taken off, and the stack dropped if it is empty or `removeAll` is set; the manager stays valid |
| FlairManagers.FlairManager.Trigger | Sources/TrashBoat/Core/Flair/FlairManager.swift:183-211 | every stack in every category is triggered and then the emptied stacks are dropped; the manager stays valid |
| FlairManagers.FlairManager.Clear | Sources/TrashBoat/Core/Flair/FlairManager.swift:236-238 | every category goes |
| FlairManagers.TriggerCategories | Sources/TrashBoat/Core/Flair/FlairManager.swift:187-192 | the first loop triggers every stack of every category, whatever order the categories are visited in |
| FlairManagers.PruneCategories | Sources/TrashBoat/Core/Flair/FlairManager.swift:195-208 | the second loop leaves every category with just its stacks that hold flairs, in any visiting order |
| FlairManagers.TriggerCategory | Sources/TrashBoat/Core/Flair/FlairManager.swift:189-191 | the first loop over one category triggers each stack |
| FlairManagers.PruneCategory | Sources/TrashBoat/Core/Flair/FlairManager.swift:199-204 | the pruning loop over one category leaves exactly its stacks that hold flairs, in order |
| FlairManagers.PruneStart | Sources/TrashBoat/Core/Flair/FlairManager.swift:197 | pruning starts with the whole list |
| FlairManagers.PruneKeep | Sources/TrashBoat/Core/Flair/FlairManager.swift:199-200 | a stack that holds flairs stays where it is |
| FlairManagers.PruneStep | Sources/TrashBoat/Core/Flair/FlairManager.swift:200-203 | the empty stack met is the one `index(of:)` finds, right after the stacks kept so far, and removing it keeps the loop's invariant |
| FlairManagers.FirstEqualAt | Sources/TrashBoat/Core/Flair/FlairManager.swift:169 | the search by `==` stops at the first stack that matches |
| FlairManagers.FindStackAt | Sources/TrashBoat/Core/Flair/FlairManager.swift:78 | the search by name stops at the first stack that has it |
| FlairManagers.AddedStacksValid | Sources/TrashBoat/Core/Flair/FlairManager.swift:77-87 | adding a flair keeps a category valid: stack names stay unique |
| FlairManagers.AddKeepsValid | Sources/TrashBoat/Core/Flair/FlairManager.swift:67-88 | adding a flair keeps the table valid |
| FlairManagers.AddThenFound | Sources/TrashBoat/Core/Flair/FlairManager.swift:67-88 | after adding a flair its category has a stack of its name |
| FlairManagers.RemovedStacksValid | Sources/TrashBoat/Core/Flair/FlairManager.swift:156-175 | removing keeps a category valid |
| FlairManagers.DropValid | Sources/TrashBoat/Core/Flair/FlairManager.swift:169-170 | dropping a stack keeps a category valid |
| FlairManagers.RemoveKeepsValid | Sources/TrashBoat/Core/Flair/FlairManager.swift:150-177 | removing keeps the table valid, keeps its categories, and changes no other category |
| FlairManagers.AddThenRemove | Sources/TrashBoat/Core/Flair/FlairManager.swift:47-51 | a plain flair added where its name was free and then removed leaves the table as it was, except that the category now exists |
| FlairManagers.FreeName | Sources/TrashBoat/Core/Flair/FlairManager.swift:72-75 | the category's stacks, created if missing, hold flairs and none has the name |
| FlairManagers.AddThenRemoveStacks | Sources/TrashBoat/Core/Flair/FlairManager.swift:78-86 | on a category's stacks: a new stack for the plain flair is appended and removing the flair drops it again |
| FlairManagers.WithoutDistinct | Sources/TrashBoat/Core/Flair/FlairManager.swift:199-204 | removing stacks keeps their names distinct |
| FlairManagers.TriggerKeepsValid | Sources/TrashBoat/Core/Flair/FlairManager.swift:183-211 | triggering keeps the table valid: the stacks kept are valid, hold flairs and keep distinct names |
| FlairManagers.TriggerKeepsExactlyOccupied | Sources/TrashBoat/Core/Flair/FlairManager.swift:194-208 | after triggering, a category keeps exactly its triggered stacks that still hold flairs: no stack of count 0 remains |
| FlairManagers.FindByNameMissesFlair | Sources/TrashBoat/Core/Flair/FlairManager.swift:115-126 | a `Status` category holding a `Poisoned` stack is not found when asked for `Poisoned` in `Status` |

## Left out

- Random numbers: `Xoroshiro` is not modelled. Its draws are parameters that satisfy its contract `0 <= r <= max`.
- Integer width: every conversion to `UInt32` that can trap is a precondition:
  - in `Dice.roll()`, the span of a range, the last index of a selection and `total - 1` of a drawing table (`Rollable`);
  - in `Generator.getResult()`, the total of the round's table (`Drawable`), and for `getResults` the same for every call (`RoundsDrawable`);
  - in the `Array+Random` helpers, `count - 1`, so the arrays hold at most `UInt32Max + 1` elements.
- The `Int64` overflow of sums, spans and counters is not modelled, because integers here are unbounded.
- `GenBump`: only the four policies built by its factory functions are modelled. The `Generator` and `GeneratorOption` initialisers that take an arbitrary closure are left out, because closures over mutable state are not values here.
- `Reward.giveReward` (Reward.swift:92-182) is left out: it writes chat messages and events. `ApplyReward` takes it as a parameter. The `randomItems` generators are stored by the reward, but `giveReward` is the only code that would call them, so they are not modelled beyond being stored.
- Inventory: the following operations are left out:
  - `getItemInfo` (Inventory.swift:148-165), which builds display text;
  - `getAllTypes` (Inventory.swift:117-120), which is dictionary keys in unspecified order;
  - `removeItem(_ item:)` (Inventory.swift:202-204), a one-line forward to `RemoveItem`;
  - `removeRandomItem(type:name:)` (Inventory.swift:209-236);
  - `removeRandomItem(ofType:)` (Inventory.swift:248-286). Its retry loop can run forever when every stack is empty, so it has no total model.
- `FlairManager.getFlairMap` (FlairManager.swift:216-231) is left out: it builds a debug string. The `removeFlair(_:)` overload (143-145) is `RemoveFromList`.
- `InventoryStack.cloneFirst`/`cloneRandom` are covered by `TakeFirst`/`TakeRandom` on copies. The stack's `getItemInfo` display text is left out.
- Points: the floating-point `PointValue.double` is left out. `PointInstance.add` is a parameter `addTo`. An instance's value is its integer amount. The manager's `transactions` list is never written in the source, so it is not modelled.
- The definition of `PointType.allowNegativeValue` is not part of this model. It is a flag on the modelled point type.
- Presentation: the following are reduced to a plain `Card` value or left out:
  - `InlineResultArticle`;
  - `MarkupInlineKey`;
  - `FlairRepresentible`;
  - the event `Handle`s;
  - all routing.
- Values and aliasing:
  - Inventories and flair managers hold their stacks as values. The aliasing of one stack object shared by two tables is not modelled.
  - Map keys use structural equality, not Swift's `==`/`hash`.
  - Dictionary iteration order is unspecified. Loops over dictionaries are proved for any visiting order.
- Strings are sequences of characters. Swift's canonical equivalence of strings is not modelled.
- `Player` and `UserProxy` keep only the fields that `getListText` and `==` read.
- DiceItems.RollItemSet: requires the dice of the entries to be distinct objects. In the source, an item listed twice would be rolled twice, and this aliasing is not modelled.
- FlairManagers.FlairManager.RemoveFlair: requires every stack of the category, if the category exists, to hold a flair, because `compareFlair` reads the first flair of a stack and traps on an empty one.
- FlairManagers.FlairManager.RemoveFromList: requires every stack of the category, if the category exists, to hold a flair, for the same trap in `compareFlair`.
- FlairManagers.FlairManager.FindFlair: with `compareContents`, requires every stack of the category, if the category exists, to hold a flair, for the same trap.
- InventoryStacks.StackInfo: requires a stackable stack to be non-empty, because the source reads `items[0]`.
- InventoryStacks.StackCards: requires a stackable stack to be non-empty, for the same read of `items[0]`.

## Findings

| source | as written | input that shows it | evidently intended | confidence | as-written member | corrected member |
|---|---|---|---|---|---|---|
| Sources/TrashBoat/Core/Flair/FlairManager.swift:115-126 | line 119 looks the table up by the flair's name instead of its category | the category `Status` holds a stack `Poisoned`; querying `Poisoned` in `Status` gives false | look the table up by the category, as the doc comment says | not executed | FlairManagers.FindByNameMissesFlair | FlairManagers.FlairManager.FindFlairWithNameCorrected |
| Sources/TrashBoat/Core/Reward/Reward.swift:63-85 | `addItems` tests each name against the table passed in, not against the one it is building. So a second item of a name new to that table replaces the first one | `init(withItems: a, b)` where `a` and `b` have the same full name gives the group `[b]` and `itemCount` 1 | the group `[a, b]` and `itemCount` 2 | not executed | Rewards.DuplicatesCollapse | Rewards.AddItemsCorrected |
