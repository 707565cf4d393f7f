/**
 * `Flair`: a named, categorised piece of game state that may watch for
 * flags and run an action when one of them is raised. The payload is opaque
 * and stands as a type parameter. The action closure is named by a number,
 * and the caller supplies what each numbered action answers (`run`); the
 * `Handle` the closure receives is not modelled.
 */
module Flairs {
  import opened Wrappers

  /** What a triggered flair asks of its stack. */
  datatype FlairResponse = FlairResponse(removeSelf: bool, removeAll: bool)

  datatype Flair<P> = Flair(
    name: string,
    category: string,
    payload: map<string, P>,
    flags: seq<string>,
    action: Option<nat>,
    allowStacks: bool,
    triggerSimultaneously: bool)

  /** `init(withName:category:)`: no payload, no flags, no action, no stacking. */
  function NewFlair<P>(name: string, category: string): (f: Flair<P>)
    ensures f.name == name && f.category == category
    ensures f.payload == map[] && f.flags == [] && f.action.None?
    ensures !f.allowStacks && !f.triggerSimultaneously
  {
    Flair(name, category, map[], [], None, false, false)
  }

  /** `init(withName:category:payload:allowStacks:)`: a missing payload leaves the empty one. */
  function NewStackingFlair<P>(name: string, category: string, payload: Option<map<string, P>>, allowStacks: bool): (f: Flair<P>)
    ensures f.name == name && f.category == category
    ensures f.payload == (if payload.Some? then payload.value else map[])
    ensures f.flags == [] && f.action.None?
    ensures f.allowStacks == allowStacks && !f.triggerSimultaneously
  {
    Flair(name, category, if payload.Some? then payload.value else map[], [], None, allowStacks, false)
  }

  /**
   * `init(withName:category:payload:flags:action:allowStacks:triggerSimultaneously:)`
   * keeps the flags and the action but drops its `allowStacks` and
   * `triggerSimultaneously` arguments: both stay false.
   */
  function NewActionFlair<P>(name: string, category: string, payload: Option<map<string, P>>, flags: seq<string>,
                             action: nat, allowStacks: bool, triggerSimultaneously: bool): (f: Flair<P>)
    ensures f.name == name && f.category == category
    ensures f.payload == (if payload.Some? then payload.value else map[])
    ensures f.flags == flags && f.action == Some(action)
    ensures !f.allowStacks && !f.triggerSimultaneously
  {
    Flair(name, category, if payload.Some? then payload.value else map[], flags, Some(action), false, false)
  }

  /** Scanning the input flags in order, one of them is among the flair's flags. */
  function AnyFlagHeld(inputFlags: seq<string>, flags: seq<string>): (b: bool)
    ensures b <==> exists i :: 0 <= i < |inputFlags| && inputFlags[i] in flags
  {
    if inputFlags == [] then false
    else if inputFlags[0] in flags then true
    else
      var rest := AnyFlagHeld(inputFlags[1..], flags);
      assert forall i :: 1 <= i < |inputFlags| ==> inputFlags[i] == inputFlags[1..][i - 1];
      rest
  }

  /**
   * `trigger(withHandle:flags:)`: nothing unless an input flag is one of the
   * flair's; then the action's response, or nothing when there is no action.
   */
  function Trigger<P>(f: Flair<P>, inputFlags: seq<string>, run: (nat, Flair<P>) -> FlairResponse): (r: Option<FlairResponse>)
    ensures r.Some? <==> f.action.Some? && exists i :: 0 <= i < |inputFlags| && inputFlags[i] in f.flags
    ensures r.Some? ==> r.value == run(f.action.value, f)
  {
    if AnyFlagHeld(inputFlags, f.flags) then
      if f.action.Some? then Some(run(f.action.value, f)) else None
    else None
  }

  /** The loop of `==` over the flags: equal lengths, then equal at every position. */
  function FlagsEqual(a: seq<string>, b: seq<string>): (r: bool)
    requires |a| == |b|
    ensures r <==> a == b
  {
    if a == [] then true
    else if a[0] != b[0] then false
    else
      var rest := FlagsEqual(a[1..], b[1..]);
      assert a == [a[0]] + a[1..] && b == [b[0]] + b[1..];
      rest
  }

  /** `==`: name, category, flags, `allowStacks` and `triggerSimultaneously`; not the payload, not the action. */
  function Equal<P>(lhs: Flair<P>, rhs: Flair<P>): (r: bool)
    ensures r <==> lhs.name == rhs.name && lhs.category == rhs.category && lhs.flags == rhs.flags
                   && lhs.allowStacks == rhs.allowStacks && lhs.triggerSimultaneously == rhs.triggerSimultaneously
  {
    if lhs.name != rhs.name then false
    else if lhs.category != rhs.category then false
    else if |lhs.flags| != |rhs.flags| then false
    else if lhs.allowStacks != rhs.allowStacks then false
    else if lhs.triggerSimultaneously != rhs.triggerSimultaneously then false
    else FlagsEqual(lhs.flags, rhs.flags)
  }

  /** `hashValue`: the hashes of the name, the category and `allowStacks`, combined by exclusive or. */
  function HashValue<P>(f: Flair<P>, stringHash: string -> bv64, boolHash: bool -> bv64): bv64
  {
    Xor3(stringHash(f.name), stringHash(f.category), boolHash(f.allowStacks))
  }

  function Xor3(x: bv64, y: bv64, z: bv64): bv64
  {
    x ^ y ^ z
  }

  // ----- properties -----

  /** `==` is an equivalence. */
  lemma EqualIsEquivalence<P>(a: Flair<P>, b: Flair<P>, c: Flair<P>)
    ensures Equal(a, a)
    ensures Equal(a, b) ==> Equal(b, a)
    ensures Equal(a, b) && Equal(b, c) ==> Equal(a, c)
  {
  }

  /** Equal flairs hash alike, as `Hashable` demands. */
  lemma EqualHashesAlike<P>(a: Flair<P>, b: Flair<P>, stringHash: string -> bv64, boolHash: bool -> bv64)
    requires Equal(a, b)
    ensures HashValue(a, stringHash, boolHash) == HashValue(b, stringHash, boolHash)
  {
    hide Xor3;
  }

  /** The payload and the action play no part in `==`. */
  lemma EqualIgnoresPayloadAndAction<P>(f: Flair<P>, payload: map<string, P>, action: Option<nat>)
    ensures Equal(f, f.(payload := payload, action := action))
  {
  }

  /** Two flairs from the name-and-category initialiser are equal exactly when names and categories agree. */
  lemma PlainFlairsEqual<P>(n1: string, c1: string, n2: string, c2: string)
    ensures Equal<P>(NewFlair(n1, c1), NewFlair(n2, c2)) <==> n1 == n2 && c1 == c2
  {
  }

  /** A flair without flags, such as a plain or stacking one, never responds. */
  lemma FlaglessNeverTriggers<P>(f: Flair<P>, inputFlags: seq<string>, run: (nat, Flair<P>) -> FlairResponse)
    requires f.flags == []
    ensures Trigger(f, inputFlags, run).None?
  {
  }
}
