/**
 * `FlairStack`: the flairs of one name and category that a manager holds.
 * The stack copies its name, category and both stacking switches from its
 * first flair and takes further flairs only when stacking is allowed and
 * they agree on all four. Triggering either asks the first flair alone or,
 * when `triggerSimultaneously` is set, every flair in turn, and then drops
 * the flairs whose answers ask for it.
 *
 * `StackState` is the stack's state as a value; the functions on it say what
 * each operation does, and the class's methods are proved against them.
 */
module FlairStacks {
  import opened Wrappers
  import opened Flairs

  datatype StackState<P> = StackState(
    name: string,
    category: string,
    allowStacks: bool,
    triggerSimultaneously: bool,
    stack: seq<Flair<P>>)

  /** The flair agrees with the stack on name, category and both stacking switches. */
  predicate SameKind<P>(s: StackState<P>, f: Flair<P>)
  {
    f.name == s.name && f.category == s.category
    && f.allowStacks == s.allowStacks && f.triggerSimultaneously == s.triggerSimultaneously
  }

  /**
   * What the stack keeps true: every flair agrees with it, and a stack that
   * does not allow stacking holds at most one flair.
   */
  predicate StackValid<P>(s: StackState<P>)
  {
    (forall i :: 0 <= i < |s.stack| ==> SameKind(s, s.stack[i]))
    && (!s.allowStacks ==> |s.stack| <= 1)
  }

  /** `init(firstState:)`: the flair's name, category and switches, and the flair alone. */
  function FirstState<P>(first: Flair<P>): (s: StackState<P>)
    ensures s.stack == [first] && SameKind(s, first) && StackValid(s)
  {
    StackState(first.name, first.category, first.allowStacks, first.triggerSimultaneously, [first])
  }

  /** `addState(_:)` accepts a flair only when stacking is allowed and it agrees with the stack. */
  predicate Accepts<P>(s: StackState<P>, f: Flair<P>)
  {
    s.allowStacks && SameKind(s, f)
  }

  /** The stack after `addState(_:)`. */
  function AddedState<P>(s: StackState<P>, f: Flair<P>): StackState<P>
  {
    if Accepts(s, f) then s.(stack := s.stack + [f]) else s
  }

  /** The stack after `removeFirst()`: one flair fewer, or none to remove. */
  function RemovedFirst<P>(s: StackState<P>): StackState<P>
  {
    if |s.stack| != 0 then s.(stack := s.stack[1..]) else s
  }

  /** `compareFlair(_:)`: the flair equals the stack's first one under `==`. */
  function CompareFlair<P>(s: StackState<P>, f: Flair<P>): (b: bool)
    requires |s.stack| > 0
    ensures b <==> Equal(f, s.stack[0])
  {
    Equal(f, s.stack[0])
  }

  /** `==` on stacks: name, category and both switches; the flairs held play no part. */
  predicate StateEqual<P>(a: StackState<P>, b: StackState<P>)
  {
    a.name == b.name && a.category == b.category
    && a.allowStacks == b.allowStacks && a.triggerSimultaneously == b.triggerSimultaneously
  }

  /** The flair answers the flags with a request to empty its stack. */
  predicate RemovesAll<P>(f: Flair<P>, flags: seq<string>, run: (nat, Flair<P>) -> FlairResponse)
  {
    var r := Trigger(f, flags, run);
    r.Some? && r.value.removeAll
  }

  /** The flair answers the flags with a request to remove itself. */
  predicate RemovesSelf<P>(f: Flair<P>, flags: seq<string>, run: (nat, Flair<P>) -> FlairResponse)
  {
    var r := Trigger(f, flags, run);
    r.Some? && r.value.removeSelf
  }

  /** The positions whose flairs ask to be removed. */
  function SelfRemovals<P>(st: seq<Flair<P>>, flags: seq<string>, run: (nat, Flair<P>) -> FlairResponse): set<nat>
  {
    set p: nat | p < |st| && RemovesSelf(st[p], flags, run)
  }

  /** The sequence without the elements at the positions in `removed`, the rest in their order. */
  function Without<T>(s: seq<T>, removed: set<nat>): seq<T>
  {
    if s == [] then []
    else Without(s[..|s| - 1], removed) + (if |s| - 1 in removed then [] else [s[|s| - 1]])
  }

  /**
   * The flairs after `trigger(handle:flags:)`. Asking the first flair alone:
   * a `removeAll` answer empties the stack, otherwise `removeSelf` drops that
   * flair. Asking all: a `removeAll` answer from any flair empties the stack,
   * otherwise exactly the flairs answering `removeSelf` go.
   */
  function Triggered<P>(s: StackState<P>, flags: seq<string>, run: (nat, Flair<P>) -> FlairResponse): seq<Flair<P>>
  {
    var st := s.stack;
    if |st| == 0 then []
    else if !s.triggerSimultaneously then
      if RemovesAll(st[0], flags, run) then []
      else if RemovesSelf(st[0], flags, run) then st[1..]
      else st
    else if exists p :: 0 <= p < |st| && RemovesAll(st[p], flags, run) then []
    else Without(st, SelfRemovals(st, flags, run))
  }

  /**
   * The loops of `trigger(handle:flags:)` on a stack value: the flairs are
   * asked in order, the positions to drop are collected highest first, and
   * they are then removed one after another.
   */
  method TriggerStack<P>(s: StackState<P>, flags: seq<string>, run: (nat, Flair<P>) -> FlairResponse) returns (r: StackState<P>)
    ensures r == s.(stack := Triggered(s, flags, run))
  {
    if |s.stack| == 0 {
      return s;
    }
    if !s.triggerSimultaneously {
      var response := Trigger(s.stack[0], flags, run);
      r := s;
      if response.Some? {
        if response.value.removeAll {
          r := s.(stack := []);
        } else if response.value.removeSelf {
          r := s.(stack := s.stack[1..]);
        }
      }
      return;
    }
    var indexesToRemove: seq<nat> := [];
    var i := 0;
    while i < |s.stack|
      invariant 0 <= i <= |s.stack|
      invariant forall p :: 0 <= p < i ==> !RemovesAll(s.stack[p], flags, run)
      invariant forall a, b :: 0 <= a < b < |indexesToRemove| ==> indexesToRemove[a] > indexesToRemove[b]
      invariant forall a :: 0 <= a < |indexesToRemove| ==> indexesToRemove[a] < i
      invariant forall p: nat :: p in indexesToRemove <==> p < i && RemovesSelf(s.stack[p], flags, run)
    {
      var response := Trigger(s.stack[i], flags, run);
      if response.Some? {
        if response.value.removeAll {
          return s.(stack := []);
        } else if response.value.removeSelf {
          indexesToRemove := [i] + indexesToRemove;
        }
      }
      i := i + 1;
    }
    var stack := RemoveIndexes(s.stack, indexesToRemove);
    assert forall p: nat :: p in indexesToRemove <==> p in SelfRemovals(s.stack, flags, run);
    r := s.(stack := stack);
  }

  /**
   * The removal loop of `trigger(handle:flags:)`: the positions, highest
   * first, are removed one after another.
   */
  method RemoveIndexes<T>(st: seq<T>, indexes: seq<nat>) returns (stack: seq<T>)
    requires forall a, b :: 0 <= a < b < |indexes| ==> indexes[a] > indexes[b]
    requires forall a :: 0 <= a < |indexes| ==> indexes[a] < |st|
    ensures forall removed: set<nat> :: (forall p: nat :: p in removed <==> p in indexes) ==> stack == Without(st, removed)
  {
    stack := st;
    ghost var removed: set<nat> := {};
    WithoutNone(st, removed);
    var j := 0;
    while j < |indexes|
      invariant 0 <= j <= |indexes|
      invariant forall p: nat :: p in removed <==> p in indexes[..j]
      invariant stack == Without(st, removed)
    {
      var x := indexes[j];
      forall y | y in removed
        ensures y > x
      {
        var a :| 0 <= a < j && indexes[a] == y;
      }
      RemoveBelow(st, removed, x);
      stack := stack[..x] + stack[x + 1..];
      removed := removed + {x};
      assert indexes[..j + 1] == indexes[..j] + [x];
      j := j + 1;
    }
    assert indexes[..j] == indexes;
    forall other: set<nat> | forall p: nat :: p in other <==> p in indexes
      ensures stack == Without(st, other)
    {
      assert other == removed;
    }
  }

  class FlairStack<P> {
    var name: string
    var category: string
    var allowStacks: bool
    var triggerSimultaneously: bool
    var stack: seq<Flair<P>>

    function Value(): StackState<P>
      reads this
    {
      StackState(name, category, allowStacks, triggerSimultaneously, stack)
    }

    /** `init(firstState:)`. */
    constructor (firstState: Flair<P>)
      ensures Value() == FirstState(firstState)
    {
      name := firstState.name;
      category := firstState.category;
      allowStacks := firstState.allowStacks;
      triggerSimultaneously := firstState.triggerSimultaneously;
      stack := [firstState];
    }

    /** `init(name:category:allowStacks:triggerSimultaneously:stack:)`, the initialiser copies use. */
    constructor FromParts(name: string, category: string, allowStacks: bool, triggerSimultaneously: bool, stack: seq<Flair<P>>)
      ensures Value() == StackState(name, category, allowStacks, triggerSimultaneously, stack)
    {
      this.name := name;
      this.category := category;
      this.allowStacks := allowStacks;
      this.triggerSimultaneously := triggerSimultaneously;
      this.stack := stack;
    }

    /** `count`. */
    function Count(): nat
      reads this
    {
      |stack|
    }

    /** `addState(_:)`. */
    method AddState(incomingState: Flair<P>)
      modifies this
      ensures Value() == AddedState(old(Value()), incomingState)
    {
      if !allowStacks { return; }
      if incomingState.name != name { return; }
      if incomingState.category != category { return; }
      if incomingState.allowStacks != allowStacks { return; }
      if incomingState.triggerSimultaneously != triggerSimultaneously { return; }
      stack := stack + [incomingState];
    }

    /** `removeFirst()`. */
    method RemoveFirst()
      modifies this
      ensures Value() == RemovedFirst(old(Value()))
    {
      if |stack| != 0 {
        stack := stack[1..];
      }
    }

    /** `compareFlair(_:)`: reads the first flair, so the stack must hold one. */
    function CompareFlair(incomingFlair: Flair<P>): (b: bool)
      reads this
      requires |stack| > 0
      ensures b <==> Equal(incomingFlair, stack[0])
    {
      Equal(incomingFlair, stack[0])
    }

    /** `trigger(handle:flags:)`. */
    method Trigger(flags: seq<string>, run: (nat, Flair<P>) -> FlairResponse)
      modifies this
      ensures Value() == old(Value()).(stack := Triggered(old(Value()), flags, run))
    {
      var v := TriggerStack(Value(), flags, run);
      stack := v.stack;
    }

    /** `copy()`: a new stack with the same switches and the same flairs. */
    method Copy() returns (c: FlairStack<P>)
      ensures fresh(c) && c.Value() == Value()
    {
      c := new FlairStack.FromParts(name, category, allowStacks, triggerSimultaneously, stack);
    }
  }

  /** `==` on stack objects. */
  predicate StackEqual<P>(lhs: FlairStack<P>, rhs: FlairStack<P>)
    reads lhs, rhs
  {
    StateEqual(lhs.Value(), rhs.Value())
  }

  // ----- Without -----

  /** An element survives exactly when it sits at a position not removed. */
  lemma {:induction false} WithoutMember<T>(s: seq<T>, removed: set<nat>, e: T)
    ensures e in Without(s, removed) <==> exists p: nat :: p < |s| && p !in removed && s[p] == e
    decreases |s|
  {
    if s != [] {
      var front := s[..|s| - 1];
      WithoutMember(front, removed, e);
      assert Without(s, removed) == Without(front, removed) + (if |s| - 1 in removed then [] else [s[|s| - 1]]);
      if e in Without(front, removed) {
        var p: nat :| p < |front| && p !in removed && front[p] == e;
        assert s[p] == e;
      }
      if exists p: nat :: p < |s| && p !in removed && s[p] == e {
        var p: nat :| p < |s| && p !in removed && s[p] == e;
        if p < |front| {
          assert front[p] == e;
        }
      }
    }
  }

  /** Only the positions inside the sequence matter. */
  lemma {:induction false} WithoutSame<T>(s: seq<T>, a: set<nat>, b: set<nat>)
    requires forall p: nat :: p < |s| ==> (p in a <==> p in b)
    ensures Without(s, a) == Without(s, b)
    decreases |s|
  {
    if s != [] {
      WithoutSame(s[..|s| - 1], a, b);
    }
  }

  /** Removing no position inside the sequence leaves it whole. */
  lemma {:induction false} WithoutNone<T>(s: seq<T>, removed: set<nat>)
    requires forall p: nat :: p in removed ==> p >= |s|
    ensures Without(s, removed) == s
    decreases |s|
  {
    if s != [] {
      WithoutNone(s[..|s| - 1], removed);
      assert s[..|s| - 1] + [s[|s| - 1]] == s;
    }
  }

  /**
   * Removing positions highest first: with every position removed so far
   * above `x`, the element at `x` is still at `x`, and removing it there is
   * removing position `x` of the original.
   */
  lemma {:induction false} RemoveBelow<T>(s: seq<T>, removed: set<nat>, x: nat)
    requires x < |s| && x !in removed
    requires forall y :: y in removed ==> y > x
    ensures x < |Without(s, removed)|
    ensures Without(s, removed + {x}) == Without(s, removed)[..x] + Without(s, removed)[x + 1..]
    decreases |s|
  {
    var front := s[..|s| - 1];
    if |s| == x + 1 {
      WithoutSame(front, removed + {x}, removed);
      WithoutNone(front, removed);
    } else {
      RemoveBelow(front, removed, x);
      var w := Without(front, removed);
      var tail := if |s| - 1 in removed then [] else [s[|s| - 1]];
      assert Without(s, removed) == w + tail;
      assert Without(s, removed + {x}) == w[..x] + w[x + 1..] + tail;
      assert (w + tail)[..x] == w[..x];
      assert (w + tail)[x + 1..] == w[x + 1..] + tail;
    }
  }

  // ----- properties -----

  /** Adding, removing the first flair and triggering all keep the stack valid. */
  lemma OperationsKeepValid<P>(s: StackState<P>, f: Flair<P>, flags: seq<string>, run: (nat, Flair<P>) -> FlairResponse)
    requires StackValid(s)
    ensures StackValid(AddedState(s, f))
    ensures StackValid(RemovedFirst(s))
    ensures StackValid(s.(stack := Triggered(s, flags, run)))
  {
    var t := Triggered(s, flags, run);
    if s.triggerSimultaneously && |s.stack| > 0 && !(exists p :: 0 <= p < |s.stack| && RemovesAll(s.stack[p], flags, run)) {
      var removed := SelfRemovals(s.stack, flags, run);
      forall k | 0 <= k < |t|
        ensures SameKind(s, t[k])
      {
        WithoutMember(s.stack, removed, t[k]);
      }
      if !s.allowStacks && |s.stack| == 1 {
        WithoutLength(s.stack, removed);
      }
    }
  }

  /** Removing positions never lengthens the sequence. */
  lemma {:induction false} WithoutLength<T>(s: seq<T>, removed: set<nat>)
    ensures |Without(s, removed)| <= |s|
    decreases |s|
  {
    if s != [] {
      WithoutLength(s[..|s| - 1], removed);
    }
  }

  /** `addState(_:)` grows the stack by one exactly when it accepts the flair. */
  lemma AddStateCount<P>(s: StackState<P>, f: Flair<P>)
    ensures |AddedState(s, f).stack| == |s.stack| + (if Accepts(s, f) then 1 else 0)
    ensures AddedState(s, f).stack[..|s.stack|] == s.stack
  {
  }

  /**
   * Triggering all flairs, with no flair asking to empty the stack: the
   * flairs kept are exactly the flairs of the stack that did not ask to be
   * removed.
   */
  lemma SimultaneousKeeps<P>(s: StackState<P>, flags: seq<string>, run: (nat, Flair<P>) -> FlairResponse, f: Flair<P>)
    requires s.triggerSimultaneously
    requires forall p :: 0 <= p < |s.stack| ==> !RemovesAll(s.stack[p], flags, run)
    ensures f in Triggered(s, flags, run) <==> f in s.stack && !RemovesSelf(f, flags, run)
  {
    if |s.stack| > 0 {
      var removed := SelfRemovals(s.stack, flags, run);
      WithoutMember(s.stack, removed, f);
      if f in s.stack && !RemovesSelf(f, flags, run) {
        var p :| 0 <= p < |s.stack| && s.stack[p] == f;
        assert p !in removed;
      }
    }
  }

  /** When no flair answers, triggering changes nothing, whichever way the stack is asked. */
  lemma QuietTriggerKeepsStack<P>(s: StackState<P>, flags: seq<string>, run: (nat, Flair<P>) -> FlairResponse)
    requires forall p :: 0 <= p < |s.stack| ==> Trigger(s.stack[p], flags, run).None?
    ensures Triggered(s, flags, run) == s.stack
  {
    if |s.stack| > 0 && s.triggerSimultaneously {
      WithoutNone(s.stack, SelfRemovals(s.stack, flags, run));
    }
  }

  /** A copy is equal to its original under `==`, and `==` ignores the flairs held. */
  lemma EqualIgnoresContents<P>(s: StackState<P>, flairs: seq<Flair<P>>)
    ensures StateEqual(s, s.(stack := flairs))
  {
  }
}
