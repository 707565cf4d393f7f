/**
 * The queue rotations the package adds to `Array` for turn order: the last
 * player to the front, the first player to the back, and one player to the
 * back. Each is a `mutating` method on a Swift array value; here it takes the
 * array and returns its new value.
 */
module PlayerQueues {

  /** `lastToFirst()`: `removeLast`, then `insert(_, at: 0)`. `removeLast` traps on an empty array. */
  method LastToFirst<T>(s: seq<T>) returns (t: seq<T>)
    requires |s| > 0
    ensures t == RotateRight(s)
  {
    var item := s[|s| - 1];
    t := s[..|s| - 1];
    t := [item] + t;
  }

  /** `firstToLast()`: `removeFirst`, then `append`. `removeFirst` traps on an empty array. */
  method FirstToLast<T>(s: seq<T>) returns (t: seq<T>)
    requires |s| > 0
    ensures t == RotateLeft(s)
  {
    var item := s[0];
    t := s[1..];
    t := t + [item];
  }

  /** `pushToLast(index:)`: `remove(at:)`, then `append`. The index must be in range or `remove(at:)` traps. */
  method PushToLast<T>(s: seq<T>, index: int) returns (t: seq<T>)
    requires 0 <= index < |s|
    ensures t == MovedToBack(s, index)
  {
    var item := s[index];
    t := s[..index] + s[index + 1..];
    t := t + [item];
  }

  // ----- the rotations as values, and their properties -----

  /** The queue with its last player moved to the front; everyone else moves one place back. */
  function RotateRight<T>(s: seq<T>): (t: seq<T>)
    requires |s| > 0
    ensures |t| == |s| && t[0] == s[|s| - 1]
    ensures forall i :: 0 <= i < |s| - 1 ==> t[i + 1] == s[i]
  {
    [s[|s| - 1]] + s[..|s| - 1]
  }

  /** The queue with its first player moved to the back; everyone else moves one place forward. */
  function RotateLeft<T>(s: seq<T>): (t: seq<T>)
    requires |s| > 0
    ensures |t| == |s| && t[|s| - 1] == s[0]
    ensures forall i :: 0 <= i < |s| - 1 ==> t[i] == s[i + 1]
  {
    s[1..] + [s[0]]
  }

  /** The queue with player `index` moved to the back; those before it stay, those after it move one place forward. */
  function MovedToBack<T>(s: seq<T>, index: nat): (t: seq<T>)
    requires index < |s|
    ensures |t| == |s| && t[|s| - 1] == s[index]
    ensures forall i :: 0 <= i < index ==> t[i] == s[i]
    ensures forall i :: index <= i < |s| - 1 ==> t[i] == s[i + 1]
  {
    s[..index] + s[index + 1..] + [s[index]]
  }

  /** Moving the last player to the front and then the first to the back restores the queue, and so does the reverse order. */
  lemma RotationsAreInverse<T>(s: seq<T>)
    requires |s| > 0
    ensures RotateLeft(RotateRight(s)) == s
    ensures RotateRight(RotateLeft(s)) == s
  {
    assert RotateLeft(RotateRight(s)) == s[..|s| - 1] + [s[|s| - 1]];
    assert s == s[..|s| - 1] + [s[|s| - 1]];
    assert s == [s[0]] + s[1..];
  }

  /** No rotation adds, loses or duplicates a player. */
  lemma RotationsArePermutations<T>(s: seq<T>, index: nat)
    requires |s| > 0
    ensures multiset(RotateRight(s)) == multiset(s)
    ensures multiset(RotateLeft(s)) == multiset(s)
    ensures index < |s| ==> multiset(MovedToBack(s, index)) == multiset(s)
  {
    assert s == s[..|s| - 1] + [s[|s| - 1]];
    assert s == [s[0]] + s[1..];
    if index < |s| {
      assert s == s[..index] + [s[index]] + s[index + 1..];
    }
  }

  /** Moving the first player to the back is moving player 0 to the back. */
  lemma RotateLeftIsMoveFirst<T>(s: seq<T>)
    requires |s| > 0
    ensures RotateLeft(s) == MovedToBack(s, 0)
  {
    assert s[..0] + s[1..] == s[1..];
  }

  /** After `k` moves of the first player to the back, the queue starts at its old position `k`. */
  lemma {:induction false} FullTurn<T>(s: seq<T>, k: nat)
    requires |s| > 0 && k <= |s|
    ensures Turns(s, k) == s[k..] + s[..k]
    decreases k
  {
    if k > 0 {
      FullTurn(s, k - 1);
      var u := Turns(s, k - 1);
      assert u == s[k - 1..] + s[..k - 1];
      assert u[0] == s[k - 1];
      assert u[1..] == s[k..] + s[..k - 1];
      assert s[..k] == s[..k - 1] + [s[k - 1]];
    } else {
      assert s[0..] + s[..0] == s;
    }
  }

  /** The queue after `k` moves of the first player to the back. */
  function Turns<T>(s: seq<T>, k: nat): (t: seq<T>)
    requires |s| > 0
    ensures |t| == |s|
  {
    if k == 0 then s else RotateLeft(Turns(s, k - 1))
  }

  /** A full round of turns, one move per player, brings the queue back to where it was. */
  lemma FullTurnRestores<T>(s: seq<T>)
    requires |s| > 0
    ensures Turns(s, |s|) == s
  {
    FullTurn(s, |s|);
    assert s[|s|..] + s[..|s|] == s;
  }
}
