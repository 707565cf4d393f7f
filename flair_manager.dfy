/**
 * `FlairManager`: the flairs a player or a game holds, as a table from
 * category to the list of stacks in it. Adding a flair joins a stack of the
 * same name in its category or opens a new one; removing takes one flair off
 * a matching stack and drops the stack once it is empty; triggering asks
 * every stack and then drops the stacks left empty.
 *
 * The table holds stack values (`StackState`); the stack objects the
 * original shares are not modelled as objects here.
 */
module FlairManagers {
  import opened Wrappers
  import opened Flairs
  import opened FlairStacks

  type Table<P> = map<string, seq<StackState<P>>>

  /**
   * A category's stacks: each valid, of that category and holding a flair,
   * and no two of the same name.
   */
  predicate CategoryValid<P>(c: string, ss: seq<StackState<P>>)
  {
    (forall i :: 0 <= i < |ss| ==> StackValid(ss[i]) && ss[i].category == c && |ss[i].stack| > 0)
    && (forall i, j :: 0 <= i < j < |ss| ==> ss[i].name != ss[j].name)
  }

  predicate TableValid<P>(t: Table<P>)
  {
    forall c :: c in t ==> CategoryValid(c, t[c])
  }

  /** `first(where: { $0.name == name })`, as a position. */
  function FindStack<P>(ss: seq<StackState<P>>, name: string): (r: Option<nat>)
    ensures r.None? <==> forall i :: 0 <= i < |ss| ==> ss[i].name != name
    ensures r.Some? ==> r.value < |ss| && ss[r.value].name == name
                        && forall i :: 0 <= i < r.value ==> ss[i].name != name
  {
    if |ss| == 0 then None
    else if ss[0].name == name then Some(0)
    else match FindStack(ss[1..], name)
      case None => None
      case Some(j) => Some(j + 1)
  }

  /** `index(where: { stack == $0 })` and `index(of: stack)`: the first stack equal under `==`. */
  function FirstEqual<P>(ss: seq<StackState<P>>, s: StackState<P>): (r: Option<nat>)
    ensures r.None? <==> forall i :: 0 <= i < |ss| ==> !StateEqual(ss[i], s)
    ensures r.Some? ==> r.value < |ss| && StateEqual(ss[r.value], s)
                        && forall i :: 0 <= i < r.value ==> !StateEqual(ss[i], s)
  {
    if |ss| == 0 then None
    else if StateEqual(ss[0], s) then Some(0)
    else match FirstEqual(ss[1..], s)
      case None => None
      case Some(j) => Some(j + 1)
  }

  /** The table with the category present, empty if it was missing. */
  function WithCategory<P>(t: Table<P>, c: string): Table<P>
  {
    if c in t then t else t[c := []]
  }

  /**
   * A category's stacks after `addToList(_:)`: the stack of the flair's name
   * is offered the flair, or a new stack of it is appended.
   */
  function AddedStacks<P>(ss: seq<StackState<P>>, f: Flair<P>): seq<StackState<P>>
  {
    match FindStack(ss, f.name)
    case Some(j) => ss[j := AddedState(ss[j], f)]
    case None => ss + [FirstState(f)]
  }

  /** The table after `addToList(_:)`: the category is created if missing, then its stacks take the flair. */
  function AddedTo<P>(t: Table<P>, f: Flair<P>): Table<P>
  {
    var t' := WithCategory(t, f.category);
    t'[f.category := AddedStacks(t'[f.category], f)]
  }

  /** The table after adding flairs one after another. */
  function AddedAll<P>(t: Table<P>, fs: seq<Flair<P>>): Table<P>
  {
    if fs == [] then t else AddedTo(AddedAll(t, fs[..|fs| - 1]), fs[|fs| - 1])
  }

  /** The stacks of the category hold flairs, as `compareFlair(_:)` needs. */
  predicate Occupied<P>(t: Table<P>, c: string)
  {
    c in t ==> forall i :: 0 <= i < |t[c]| ==> |t[c][i].stack| > 0
  }

  /**
   * A category's stacks after `removeFromList(_:removeAll:)`. Nothing changes
   * unless there is a stack of the flair's name whose first flair equals it.
   * Then one flair is taken off, and the first stack equal to the result
   * under `==` is dropped if the result is empty or `removeAll` is set.
   */
  function RemovedStacks<P>(ss: seq<StackState<P>>, f: Flair<P>, removeAll: bool): seq<StackState<P>>
    requires forall i :: 0 <= i < |ss| ==> |ss[i].stack| > 0
  {
    match FindStack(ss, f.name)
    case None => ss
    case Some(j) =>
      if !CompareFlair(ss[j], f) then ss
      else
        var s' := RemovedFirst(ss[j]);
        var stacks := ss[j := s'];
        if |s'.stack| == 0 || removeAll then
          assert StateEqual(stacks[j], s');
          var q := FirstEqual(stacks, s').value;
          stacks[..q] + stacks[q + 1..]
        else stacks
  }

  /** The table after `removeFromList(_:removeAll:)`: a missing category changes nothing. */
  function RemovedFrom<P>(t: Table<P>, f: Flair<P>, removeAll: bool): Table<P>
    requires Occupied(t, f.category)
  {
    if f.category !in t then t
    else t[f.category := RemovedStacks(t[f.category], f, removeAll)]
  }

  /** Every stack of a category after being triggered. */
  function TriggeredAll<P>(ss: seq<StackState<P>>, flags: seq<string>, run: (nat, Flair<P>) -> FlairResponse): (r: seq<StackState<P>>)
    ensures |r| == |ss|
    ensures forall i :: 0 <= i < |ss| ==> r[i] == ss[i].(stack := Triggered(ss[i], flags, run))
  {
    seq(|ss|, i requires 0 <= i < |ss| => ss[i].(stack := Triggered(ss[i], flags, run)))
  }

  /** The positions of the empty stacks. */
  function EmptyPositions<P>(ss: seq<StackState<P>>): set<nat>
  {
    set p: nat | p < |ss| && |ss[p].stack| == 0
  }

  /** The stacks that hold flairs, in their order. */
  function NonEmpty<P>(ss: seq<StackState<P>>): seq<StackState<P>>
  {
    Without(ss, EmptyPositions(ss))
  }

  /** The table after `trigger(handle:flags:)`: every stack triggered, then the empty ones dropped. */
  function TriggeredTable<P>(t: Table<P>, flags: seq<string>, run: (nat, Flair<P>) -> FlairResponse): Table<P>
  {
    map c | c in t :: NonEmpty(TriggeredAll(t[c], flags, run))
  }

  /** The query of `findFlair(withName:category:)` as written: the table is looked up by the name. */
  predicate FoundByNameAsWritten<P>(t: Table<P>, name: string, category: string)
  {
    name in t && exists i :: 0 <= i < |t[name]| && t[name][i].name == name
  }

  /** The query its documentation describes: a stack of that name in that category. */
  predicate FoundByName<P>(t: Table<P>, name: string, category: string)
  {
    category in t && exists i :: 0 <= i < |t[category]| && t[category][i].name == name
  }

  class FlairManager<P> {
    var flairs: Table<P>

    predicate Valid()
      reads this
    {
      TableValid(flairs)
    }

    /** `init()`: no categories. */
    constructor ()
      ensures flairs == map[] && Valid()
    {
      flairs := map[];
    }

    /** `subscript(category:)`: the names of the category's stacks in order, or nil for a missing category. */
    method CategoryNames(category: string) returns (r: Option<seq<string>>)
      ensures r.None? <==> category !in flairs
      ensures r.Some? ==> |r.value| == |flairs[category]|
                          && forall i :: 0 <= i < |r.value| ==> r.value[i] == flairs[category][i].name
      ensures r.Some? && Valid() ==> forall i, j :: 0 <= i < j < |r.value| ==> r.value[i] != r.value[j]
    {
      if category !in flairs {
        return None;
      }
      var stack := flairs[category];
      var result: seq<string> := [];
      var i := 0;
      while i < |stack|
        invariant 0 <= i <= |stack|
        invariant |result| == i
        invariant forall k :: 0 <= k < i ==> result[k] == stack[k].name
      {
        result := result + [stack[i].name];
        i := i + 1;
      }
      return Some(result);
    }

    /** `addFlair(withName:category:)`: a plain flair of that name and category. */
    method AddFlair(name: string, category: string)
      modifies this
      ensures flairs == AddedTo(old(flairs), NewFlair(name, category))
      ensures old(Valid()) ==> Valid()
    {
      AddToList(NewFlair(name, category));
    }

    /** `addFlair(_:)` for several flairs, one after another. */
    method AddFlairs(fs: seq<Flair<P>>)
      modifies this
      ensures flairs == AddedAll(old(flairs), fs)
      ensures old(Valid()) ==> Valid()
    {
      var i := 0;
      while i < |fs|
        invariant 0 <= i <= |fs|
        invariant flairs == AddedAll(old(flairs), fs[..i])
        invariant old(Valid()) ==> Valid()
      {
        assert fs[..i + 1][..i] == fs[..i];
        AddToList(fs[i]);
        i := i + 1;
      }
      assert fs[..i] == fs;
    }

    /** `addToList(_:)`. */
    method AddToList(incomingFlair: Flair<P>)
      modifies this
      ensures flairs == AddedTo(old(flairs), incomingFlair)
      ensures old(Valid()) ==> Valid()
    {
      if Valid() {
        AddKeepsValid(flairs, incomingFlair);
      }
      if incomingFlair.category !in flairs {
        flairs := flairs[incomingFlair.category := []];
      }
      var ss := flairs[incomingFlair.category];
      var found := FindStack(ss, incomingFlair.name);
      if found.Some? {
        var j := found.value;
        flairs := flairs[incomingFlair.category := ss[j := AddedState(ss[j], incomingFlair)]];
      } else {
        flairs := flairs[incomingFlair.category := ss + [FirstState(incomingFlair)]];
      }
    }

    /**
     * `findFlair(_:compareContents:)`: with `compareContents` false, some
     * stack of the category has the flair's name; with it true, some stack's
     * first flair equals the flair.
     */
    method FindFlair(incomingFlair: Flair<P>, compareContents: bool) returns (b: bool)
      requires compareContents ==> Occupied(flairs, incomingFlair.category)
      ensures b <==> incomingFlair.category in flairs
                     && exists i :: 0 <= i < |flairs[incomingFlair.category]|
                                    && (if compareContents then CompareFlair(flairs[incomingFlair.category][i], incomingFlair)
                                        else flairs[incomingFlair.category][i].name == incomingFlair.name)
    {
      if incomingFlair.category !in flairs {
        return false;
      }
      var category := flairs[incomingFlair.category];
      var i := 0;
      while i < |category|
        invariant 0 <= i <= |category|
        invariant forall k :: 0 <= k < i ==> !(if compareContents then CompareFlair(category[k], incomingFlair)
                                                else category[k].name == incomingFlair.name)
      {
        if compareContents {
          if CompareFlair(category[i], incomingFlair) {
            return true;
          }
        } else {
          if category[i].name == incomingFlair.name {
            return true;
          }
        }
        i := i + 1;
      }
      return false;
    }

    /** `findFlair(withName:category:)` as written: it looks the table up by the name, not the category. */
    method FindFlairWithName(name: string, category: string) returns (b: bool)
      ensures b <==> FoundByNameAsWritten(flairs, name, category)
    {
      if name !in flairs {
        return false;
      }
      var stacks := flairs[name];
      var i := 0;
      while i < |stacks|
        invariant 0 <= i <= |stacks|
        invariant forall k :: 0 <= k < i ==> stacks[k].name != name
      {
        if stacks[i].name == name {
          return true;
        }
        i := i + 1;
      }
      return false;
    }

    /** `findFlair(withName:category:)` as documented: the stack is looked for in the category. */
    method FindFlairWithNameCorrected(name: string, category: string) returns (b: bool)
      ensures b <==> FoundByName(flairs, name, category)
    {
      if category !in flairs {
        return false;
      }
      var stacks := flairs[category];
      var i := 0;
      while i < |stacks|
        invariant 0 <= i <= |stacks|
        invariant forall k :: 0 <= k < i ==> stacks[k].name != name
      {
        if stacks[i].name == name {
          return true;
        }
        i := i + 1;
      }
      return false;
    }

    /** `removeFlair(withName:category:removeAll:)`: removal against a plain flair of that name and category. */
    method RemoveFlair(name: string, category: string, removeAll: bool)
      modifies this
      requires Occupied(flairs, category)
      ensures flairs == RemovedFrom(old(flairs), NewFlair(name, category), removeAll)
      ensures old(Valid()) ==> Valid()
    {
      RemoveFromList(NewFlair(name, category), removeAll);
    }

    /** `removeFromList(_:removeAll:)`. */
    method RemoveFromList(incomingFlair: Flair<P>, removeAll: bool)
      modifies this
      requires Occupied(flairs, incomingFlair.category)
      ensures flairs == RemovedFrom(old(flairs), incomingFlair, removeAll)
      ensures old(Valid()) ==> Valid()
    {
      if Valid() {
        RemoveKeepsValid(flairs, incomingFlair, removeAll);
      }
      if incomingFlair.category !in flairs {
        return;
      }
      var stacks := flairs[incomingFlair.category];
      var found := FindStack(stacks, incomingFlair.name);
      if found.Some? {
        var j := found.value;
        if !CompareFlair(stacks[j], incomingFlair) {
          assert flairs[incomingFlair.category := stacks] == flairs;
          return;
        }
        var stack := RemovedFirst(stacks[j]);
        stacks := stacks[j := stack];
        if |stack.stack| == 0 || removeAll {
          assert StateEqual(stacks[j], stack);
          var index := FirstEqual(stacks, stack).value;
          stacks := stacks[..index] + stacks[index + 1..];
        }
      }
      assert stacks == RemovedStacks(old(flairs)[incomingFlair.category], incomingFlair, removeAll);
      flairs := flairs[incomingFlair.category := stacks];
    }

    /**
     * `trigger(handle:flags:)`: every stack of every category is triggered,
     * and then every category drops its empty stacks.
     */
    method Trigger(flags: seq<string>, run: (nat, Flair<P>) -> FlairResponse)
      modifies this
      requires Valid()
      ensures flairs == TriggeredTable(old(flairs), flags, run)
      ensures Valid()
    {
      ghost var start := flairs;
      forall c | c in start
        ensures DistinctNames(TriggeredAll(start[c], flags, run))
      {
        assert CategoryValid(c, start[c]);
      }
      var triggered := TriggerCategories(flairs, flags, run);
      flairs := PruneCategories(triggered);
      TriggerKeepsValid(start, flags, run);
    }

    /** `clear()`: every category goes. */
    method Clear()
      modifies this
      ensures flairs == map[] && Valid()
    {
      flairs := map[];
    }
  }

  /** The first loop of `trigger(handle:flags:)`: every category, in any order, has its stacks triggered. */
  method TriggerCategories<P>(t: Table<P>, flags: seq<string>, run: (nat, Flair<P>) -> FlairResponse) returns (r: Table<P>)
    ensures r == map c | c in t :: TriggeredAll(t[c], flags, run)
  {
    r := t;
    var keys := t.Keys;
    while keys != {}
      invariant keys <= t.Keys && r.Keys == t.Keys
      invariant forall c :: c in t ==> r[c] == if c in keys then t[c] else TriggeredAll(t[c], flags, run)
      decreases keys
    {
      var c :| c in keys;
      var triggered := TriggerCategory(r[c], flags, run);
      r := r[c := triggered];
      keys := keys - {c};
    }
  }

  /** The second loop of `trigger(handle:flags:)`: every category, in any order, drops its empty stacks. */
  method PruneCategories<P>(t: Table<P>) returns (r: Table<P>)
    requires forall c :: c in t ==> DistinctNames(t[c])
    ensures r == map c | c in t :: NonEmpty(t[c])
  {
    r := t;
    var keys := t.Keys;
    while keys != {}
      invariant keys <= t.Keys && r.Keys == t.Keys
      invariant forall c :: c in t ==> r[c] == if c in keys then t[c] else NonEmpty(t[c])
      decreases keys
    {
      var c :| c in keys;
      var currentArray := PruneCategory(r[c]);
      r := r[c := currentArray];
      keys := keys - {c};
    }
  }

  /** The first loop of `trigger(handle:flags:)` over one category. */
  method TriggerCategory<P>(ss: seq<StackState<P>>, flags: seq<string>, run: (nat, Flair<P>) -> FlairResponse)
    returns (r: seq<StackState<P>>)
    ensures r == TriggeredAll(ss, flags, run)
  {
    r := [];
    var i := 0;
    while i < |ss|
      invariant 0 <= i <= |ss|
      invariant |r| == i
      invariant forall k :: 0 <= k < i ==> r[k] == ss[k].(stack := Triggered(ss[k], flags, run))
    {
      var triggered := TriggerStack(ss[i], flags, run);
      r := r + [triggered];
      i := i + 1;
    }
  }

  /** No two stacks share a name. */
  predicate DistinctNames<P>(ss: seq<StackState<P>>)
  {
    forall i, j :: 0 <= i < j < |ss| ==> ss[i].name != ss[j].name
  }

  /**
   * The second loop of `trigger(handle:flags:)` over one category: for each
   * stack, in order, that is empty, the first stack equal to it under `==`
   * is removed. With distinct names that is the empty stack itself.
   */
  method PruneCategory<P>(ss: seq<StackState<P>>) returns (currentArray: seq<StackState<P>>)
    requires DistinctNames(ss)
    ensures currentArray == NonEmpty(ss)
  {
    hide Without, FirstEqual, DistinctNames;
    var empty := EmptyPositions(ss);
    currentArray := ss;
    PruneStart(ss, empty);
    var p := 0;
    while p < |ss|
      invariant 0 <= p <= |ss|
      invariant currentArray == Without(ss[..p], empty) + ss[p..]
    {
      if |ss[p].stack| == 0 {
        PruneStep(ss, p, empty, currentArray);
        var index := FirstEqual(currentArray, ss[p]).value;
        currentArray := currentArray[..index] + currentArray[index + 1..];
      } else {
        PruneKeep(ss, p, empty);
      }
      p := p + 1;
    }
    assert ss[..p] == ss;
  }

  lemma PruneStart<P>(ss: seq<StackState<P>>, empty: set<nat>)
    ensures ss == Without(ss[..0], empty) + ss[0..]
  {
    assert ss[..0] == [];
  }

  /** A stack that holds flairs stays where it is. */
  lemma PruneKeep<P>(ss: seq<StackState<P>>, p: nat, empty: set<nat>)
    requires p < |ss| && |ss[p].stack| > 0 && empty == EmptyPositions(ss)
    ensures Without(ss[..p], empty) + ss[p..] == Without(ss[..p + 1], empty) + ss[p + 1..]
  {
    var front := ss[..p + 1];
    assert front[..p] == ss[..p];
    assert p !in empty;
    assert ss[p..] == [ss[p]] + ss[p + 1..];
  }

  /** The empty stack at `p` is the first stack equal to it, and it sits right after the stacks kept so far. */
  lemma PruneStep<P>(ss: seq<StackState<P>>, p: nat, empty: set<nat>, current: seq<StackState<P>>)
    requires DistinctNames(ss) && p < |ss| && |ss[p].stack| == 0
    requires empty == EmptyPositions(ss)
    requires current == Without(ss[..p], empty) + ss[p..]
    ensures FirstEqual(current, ss[p]) == Some(|Without(ss[..p], empty)|)
    ensures var q := |Without(ss[..p], empty)|;
            current[..q] + current[q + 1..] == Without(ss[..p + 1], empty) + ss[p + 1..]
  {
    var kept := Without(ss[..p], empty);
    var q := |kept|;
    assert current[q] == ss[p];
    forall k | 0 <= k < q
      ensures !StateEqual(current[k], ss[p])
    {
      assert current[k] == kept[k];
      WithoutMember(ss[..p], empty, kept[k]);
      var i: nat :| i < p && i !in empty && ss[..p][i] == kept[k];
    }
    FirstEqualAt(current, ss[p], q);
    var front := ss[..p + 1];
    assert front[..p] == ss[..p];
    assert Without(front, empty) == kept;
    assert current[..q] == kept;
    assert current[q + 1..] == ss[p + 1..];
  }

  /** The first stack equal to `s` is at `j` when the one at `j` is and none before it is. */
  lemma FirstEqualAt<P>(ss: seq<StackState<P>>, s: StackState<P>, j: nat)
    requires j < |ss| && StateEqual(ss[j], s)
    requires forall i :: 0 <= i < j ==> !StateEqual(ss[i], s)
    ensures FirstEqual(ss, s) == Some(j)
  {
    var r := FirstEqual(ss, s);
    assert r.Some? && r.value <= j;
  }

  /** The first stack named `name` is at `j` when the one at `j` is and none before it is. */
  lemma FindStackAt<P>(ss: seq<StackState<P>>, name: string, j: nat)
    requires j < |ss| && ss[j].name == name
    requires forall i :: 0 <= i < j ==> ss[i].name != name
    ensures FindStack(ss, name) == Some(j)
  {
    var r := FindStack(ss, name);
    assert r.Some? && r.value <= j;
  }

  // ----- properties -----

  /** Adding a flair keeps a category valid. */
  lemma AddedStacksValid<P>(c: string, ss: seq<StackState<P>>, f: Flair<P>)
    requires CategoryValid(c, ss) && f.category == c
    ensures CategoryValid(c, AddedStacks(ss, f))
  {
    match FindStack(ss, f.name)
    case Some(j) =>
      OperationsKeepValid(ss[j], f, [], (n: nat, g: Flair<P>) => FlairResponse(false, false));
    case None =>
  }

  /** Adding a flair keeps the table valid. */
  lemma AddKeepsValid<P>(t: Table<P>, f: Flair<P>)
    requires TableValid(t)
    ensures TableValid(AddedTo(t, f))
  {
    var t' := WithCategory(t, f.category);
    assert CategoryValid(f.category, t'[f.category]);
    AddedStacksValid(f.category, t'[f.category], f);
  }

  /** After adding a flair, its category has a stack of its name. */
  lemma AddThenFound<P>(t: Table<P>, f: Flair<P>)
    ensures FoundByName(AddedTo(t, f), f.name, f.category)
  {
    var ss := WithCategory(t, f.category)[f.category];
    match FindStack(ss, f.name)
    case Some(j) =>
      assert AddedTo(t, f)[f.category][j].name == f.name;
    case None =>
      assert AddedTo(t, f)[f.category][|ss|].name == f.name;
  }

  /** Removing a flair keeps a category valid. */
  lemma RemovedStacksValid<P>(c: string, ss: seq<StackState<P>>, f: Flair<P>, removeAll: bool)
    requires CategoryValid(c, ss)
    ensures CategoryValid(c, RemovedStacks(ss, f, removeAll))
  {
    match FindStack(ss, f.name)
    case None =>
    case Some(j) =>
      if CompareFlair(ss[j], f) {
        var s' := RemovedFirst(ss[j]);
        OperationsKeepValid(ss[j], f, [], (n: nat, g: Flair<P>) => FlairResponse(false, false));
        var stacks := ss[j := s'];
        if |s'.stack| == 0 || removeAll {
          forall i | 0 <= i < j
            ensures !StateEqual(stacks[i], s')
          {
            assert ss[i].name != ss[j].name;
          }
          FirstEqualAt(stacks, s', j);
          DropValid(c, ss, j, s');
        } else {
          assert CategoryValid(c, stacks);
        }
      }
  }

  /** Dropping the stack at `j` keeps a category valid. */
  lemma DropValid<P>(c: string, ss: seq<StackState<P>>, j: nat, s: StackState<P>)
    requires CategoryValid(c, ss) && j < |ss|
    ensures CategoryValid(c, ss[j := s][..j] + ss[j := s][j + 1..])
  {
    var rest := ss[j := s][..j] + ss[j := s][j + 1..];
    assert forall i :: 0 <= i < |rest| ==> rest[i] == (if i < j then ss[i] else ss[i + 1]);
  }

  /** Removing a flair keeps the table valid, and no other category changes. */
  lemma RemoveKeepsValid<P>(t: Table<P>, f: Flair<P>, removeAll: bool)
    requires TableValid(t)
    ensures Occupied(t, f.category)
    ensures TableValid(RemovedFrom(t, f, removeAll))
    ensures RemovedFrom(t, f, removeAll).Keys == t.Keys
    ensures forall c :: c in t && c != f.category ==> RemovedFrom(t, f, removeAll)[c] == t[c]
  {
    if f.category in t {
      assert CategoryValid(f.category, t[f.category]);
      RemovedStacksValid(f.category, t[f.category], f, removeAll);
    }
  }

  /**
   * A plain flair added where no stack of its name existed, then removed,
   * leaves the table as it was, except that its category now exists.
   */
  lemma AddThenRemove<P>(t: Table<P>, name: string, category: string, removeAll: bool)
    requires TableValid(t)
    requires category in t ==> forall i :: 0 <= i < |t[category]| ==> t[category][i].name != name
    ensures Occupied(AddedTo(t, NewFlair(name, category)), category)
    ensures RemovedFrom(AddedTo(t, NewFlair(name, category)), NewFlair(name, category), removeAll) == WithCategory(t, category)
  {
    hide AddedStacks, RemovedStacks, TableValid;
    var f: Flair<P> := NewFlair(name, category);
    var t' := WithCategory(t, category);
    var ss := t'[category];
    FreeName(t, name, category);
    AddThenRemoveStacks(ss, f, removeAll);
    var t1 := AddedTo(t, f);
    assert t1 == t'[category := AddedStacks(ss, f)];
    assert RemovedFrom(t1, f, removeAll) == t1[category := ss];
    assert t1[category := ss] == t'[category := ss] == t';
  }

  /** The category's stacks, created if missing, hold flairs and none has the name. */
  lemma FreeName<P>(t: Table<P>, name: string, category: string)
    requires TableValid(t)
    requires category in t ==> forall i :: 0 <= i < |t[category]| ==> t[category][i].name != name
    ensures var ss := WithCategory(t, category)[category];
            forall i :: 0 <= i < |ss| ==> ss[i].name != name && |ss[i].stack| > 0
  {
    if category in t {
      assert CategoryValid(category, t[category]);
    }
  }

  /** The same on a category's stacks. */
  lemma AddThenRemoveStacks<P>(ss: seq<StackState<P>>, f: Flair<P>, removeAll: bool)
    requires forall i :: 0 <= i < |ss| ==> ss[i].name != f.name && |ss[i].stack| > 0
    requires f.flags == [] && !f.allowStacks && !f.triggerSimultaneously
    ensures forall i :: 0 <= i < |AddedStacks(ss, f)| ==> |AddedStacks(ss, f)[i].stack| > 0
    ensures RemovedStacks(AddedStacks(ss, f), f, removeAll) == ss
  {
    var stacks := ss + [FirstState(f)];
    assert AddedStacks(ss, f) == stacks;
    FindStackAt(stacks, f.name, |ss|);
    var s' := RemovedFirst(stacks[|ss|]);
    var updated := stacks[|ss| := s'];
    forall i | 0 <= i < |ss|
      ensures !StateEqual(updated[i], s')
    {
      assert updated[i].name == ss[i].name;
    }
    FirstEqualAt(updated, s', |ss|);
    assert updated[..|ss|] == ss;
  }

  /** Removing positions keeps names distinct and keeps each survivor from the original. */
  lemma {:induction false} WithoutDistinct<P>(ss: seq<StackState<P>>, removed: set<nat>)
    requires DistinctNames(ss)
    ensures DistinctNames(Without(ss, removed))
    decreases |ss|
  {
    if ss != [] {
      var front := ss[..|ss| - 1];
      WithoutDistinct(front, removed);
      var w := Without(front, removed);
      if |ss| - 1 !in removed {
        forall k | 0 <= k < |w|
          ensures w[k].name != ss[|ss| - 1].name
        {
          WithoutMember(front, removed, w[k]);
          var i: nat :| i < |front| && i !in removed && front[i] == w[k];
        }
      }
    }
  }

  /** Triggering keeps the table valid: the stacks kept are valid, hold flairs and keep distinct names. */
  lemma TriggerKeepsValid<P>(t: Table<P>, flags: seq<string>, run: (nat, Flair<P>) -> FlairResponse)
    requires TableValid(t)
    ensures TableValid(TriggeredTable(t, flags, run))
  {
    forall c | c in t
      ensures CategoryValid(c, NonEmpty(TriggeredAll(t[c], flags, run)))
    {
      var ss := t[c];
      assert CategoryValid(c, ss);
      var tr := TriggeredAll(ss, flags, run);
      var empty := EmptyPositions(tr);
      var kept := NonEmpty(tr);
      forall i | 0 <= i < |tr|
        ensures StackValid(tr[i]) && tr[i].category == c
      {
        OperationsKeepValid(ss[i], ss[i].stack[0], flags, run);
      }
      forall k | 0 <= k < |kept|
        ensures StackValid(kept[k]) && kept[k].category == c && |kept[k].stack| > 0
      {
        WithoutMember(tr, empty, kept[k]);
        var i: nat :| i < |tr| && i !in empty && tr[i] == kept[k];
      }
      assert DistinctNames(tr);
      WithoutDistinct(tr, empty);
    }
  }

  /** After triggering, the stacks kept in a category are exactly its triggered stacks that still hold flairs. */
  lemma TriggerKeepsExactlyOccupied<P>(t: Table<P>, flags: seq<string>, run: (nat, Flair<P>) -> FlairResponse, c: string, s: StackState<P>)
    requires c in t
    ensures s in TriggeredTable(t, flags, run)[c] <==> s in TriggeredAll(t[c], flags, run) && |s.stack| > 0
  {
    var tr := TriggeredAll(t[c], flags, run);
    WithoutMember(tr, EmptyPositions(tr), s);
    if s in tr && |s.stack| > 0 {
      var i :| 0 <= i < |tr| && tr[i] == s;
      assert i !in EmptyPositions(tr);
    }
  }

  /**
   * `findFlair(withName:category:)` as written misses a flair that is
   * there: a table whose `Status` category holds a stack `Poisoned` is not
   * found when asked for `Poisoned` in `Status`.
   */
  lemma FindByNameMissesFlair<P>()
    ensures var t: Table<P> := map["Status" := [FirstState(NewFlair("Poisoned", "Status"))]];
            FoundByName(t, "Poisoned", "Status") && !FoundByNameAsWritten(t, "Poisoned", "Status")
  {
    var t: Table<P> := map["Status" := [FirstState(NewFlair("Poisoned", "Status"))]];
    assert t["Status"][0].name == "Poisoned";
    assert "Poisoned" != "Status";
  }
}
