/**
 * The random helpers the package adds to `Array`: a random element or index,
 * a random selection with replacement, removing a random element, and a
 * selection that deals the array out like a deck and reshuffles it when it
 * runs out.
 *
 * Every helper makes a fresh `Xoroshiro` for each draw and converts
 * `count - 1` to `UInt32`, so an array of more than `UInt32Max + 1` elements
 * traps. A single draw is given as `random32`, a loop's draws as a stream
 * `rng`, whose call `i` answers `rng(i, max)` (see `Dice.IsRandomStream`).
 */
module ArrayRandom {
  import opened Wrappers
  import opened Dice

  /** `getRandomIndex`: nil on an empty array, otherwise the drawn index. */
  function GetRandomIndex<T(==)>(s: seq<T>, random32: int -> int): (r: Option<nat>)
    requires IsRandom32(random32) && |s| <= UInt32Max + 1
    ensures r.None? <==> |s| == 0
    ensures r.Some? ==> r.value < |s|
  {
    if |s| > 0 then Some(random32(|s| - 1)) else None
  }

  /** `getRandom`: nil on an empty array, otherwise the element at the index `getRandomIndex` would draw. */
  function GetRandom<T(==)>(s: seq<T>, random32: int -> int): (r: Option<T>)
    requires IsRandom32(random32) && |s| <= UInt32Max + 1
    ensures r.None? <==> |s| == 0
    ensures r.Some? ==> r.value in s && r.value == s[GetRandomIndex(s, random32).value]
  {
    if |s| > 0 then Some(s[random32(|s| - 1)]) else None
  }

  /**
   * Both `randomSelection` overloads. The loop runs once per element of the
   * array, so `length` is never read: the result is as long as the array.
   * The overload that takes a generator copies it before each draw; its draws
   * are the stream `rng` as well (all equal if the generator is a value type).
   */
  method RandomSelection<T(==)>(s: seq<T>, length: int, rng: (nat, int) -> int) returns (r: Option<seq<T>>)
    requires IsRandomStream(rng) && |s| <= UInt32Max + 1
    ensures r.None? <==> |s| == 0
    ensures r.Some? ==> |r.value| == |s|
    ensures r.Some? ==> forall i :: 0 <= i < |s| ==> r.value[i] == s[rng(i, |s| - 1)]
    ensures r.Some? ==> forall x :: x in r.value ==> x in s
  {
    if |s| == 0 {
      return None;
    }
    var result: seq<T> := [];
    var i := 0;
    while i < |s|
      invariant 0 <= i <= |s| && |result| == i
      invariant forall k :: 0 <= k < i ==> result[k] == s[rng(k, |s| - 1)]
    {
      var index := rng(i, |s| - 1);
      result := result + [s[index]];
      i := i + 1;
    }
    return Some(result);
  }

  /** The array without its element at `i`, the others in their order. */
  function RemoveAt<T(==)>(s: seq<T>, i: nat): (t: seq<T>)
    requires i < |s|
    ensures |t| == |s| - 1
    ensures forall k :: 0 <= k < i ==> t[k] == s[k]
    ensures forall k :: i <= k < |t| ==> t[k] == s[k + 1]
    ensures multiset(t) + multiset{s[i]} == multiset(s)
  {
    assert s == s[..i] + [s[i]] + s[i + 1..];
    s[..i] + s[i + 1..]
  }

  /**
   * `popRandom`: on a non-empty array, removes the element at the drawn index
   * and returns it; the others keep their order. An empty array is left alone.
   */
  method PopRandom<T(==)>(s: seq<T>, random32: int -> int) returns (t: seq<T>, item: Option<T>)
    requires IsRandom32(random32) && |s| <= UInt32Max + 1
    ensures item.None? <==> |s| == 0
    ensures item.None? ==> t == s
    ensures item.Some? ==> var index := random32(|s| - 1);
                           item.value == s[index] && t == RemoveAt(s, index)
  {
    if |s| > 0 {
      var index := random32(|s| - 1);
      item := Some(s[index]);
      t := RemoveAt(s, index);
    } else {
      t, item := s, None;
    }
  }

  /**
   * The picks are dealt from the array like cards from a deck: taken in
   * blocks of `|s|`, every complete block is a rearrangement of `s`, and the
   * last, possibly incomplete, block repeats no card more often than `s` holds it.
   */
  predicate Dealt<T(==)>(r: seq<T>, s: seq<T>)
    requires |s| > 0
    decreases |r|
  {
    if |r| <= |s| then multiset(r) <= multiset(s)
    else multiset(r[..|s|]) == multiset(s) && Dealt(r[|s|..], s)
  }

  /** `r` consists of complete blocks of `|s|` picks, each a rearrangement of `s`. */
  ghost predicate Blocks<T>(r: seq<T>, s: seq<T>)
    requires |s| > 0
    decreases |r|
  {
    |r| == 0 || (|r| >= |s| && multiset(r[..|s|]) == multiset(s) && Blocks(r[|s|..], s))
  }

  /** One more complete block. */
  lemma {:induction false} BlocksAppend<T>(done: seq<T>, cur: seq<T>, s: seq<T>)
    requires |s| > 0 && Blocks(done, s)
    requires |cur| == |s| && multiset(cur) == multiset(s)
    ensures Blocks(done + cur, s)
    decreases |done|
  {
    if |done| == 0 {
      assert done + cur == cur;
      assert cur[..|s|] == cur && cur[|s|..] == [];
    } else {
      var rest := done[|s|..];
      assert (done + cur)[..|s|] == done[..|s|];
      assert (done + cur)[|s|..] == rest + cur;
      BlocksAppend(rest, cur, s);
    }
  }

  /** Complete blocks followed by an incomplete one are dealt. */
  lemma {:induction false} DealtAppend<T>(done: seq<T>, cur: seq<T>, s: seq<T>)
    requires |s| > 0 && Blocks(done, s)
    requires |cur| <= |s| && multiset(cur) <= multiset(s)
    ensures Dealt(done + cur, s)
    decreases |done|
  {
    if |done| == 0 {
      assert done + cur == cur;
    } else {
      var rest := done[|s|..];
      assert (done + cur)[..|s|] == done[..|s|];
      assert (done + cur)[|s|..] == rest + cur;
      DealtAppend(rest, cur, s);
    }
  }

  /** Every element of a dealt sequence is an element of the deck. */
  lemma {:induction false} DealtMembers<T>(r: seq<T>, s: seq<T>, x: T)
    requires |s| > 0 && Dealt(r, s) && x in r
    ensures x in s
    decreases |r|
  {
    if |r| <= |s| {
      assert x in multiset(r);
    } else {
      assert r == r[..|s|] + r[|s|..];
      if x in r[..|s|] {
        assert x in multiset(r[..|s|]);
      } else {
        DealtMembers(r[|s|..], s, x);
      }
    }
  }

  /** Block `k` of a sequence dealt from `s` (the picks `k * |s|` to `(k + 1) * |s| - 1`) is a rearrangement of `s`. */
  lemma {:induction false} DealtBlock<T>(r: seq<T>, s: seq<T>, k: nat)
    requires |s| > 0 && Dealt(r, s) && (k + 1) * |s| <= |r|
    ensures multiset(r[k * |s|..(k + 1) * |s|]) == multiset(s)
    decreases k
  {
    var n := |s|;
    var lo, hi := k * n, (k + 1) * n;
    BlockBounds(k, n);
    if |r| <= n {
      assert r[lo..hi] == r;
      MultisetSubsetEqual(multiset(r), multiset(s));
    } else if k == 0 {
      assert r[lo..hi] == r[..n];
    } else {
      var r' := r[n..];
      DealtBlock(r', s, k - 1);
      assert r'[lo - n..hi - n] == r[lo..hi];
    }
  }

  /** The arithmetic of block boundaries. */
  lemma BlockBounds(k: nat, n: nat)
    requires n > 0
    ensures (k + 1) * n == k * n + n
    ensures k >= 1 ==> (k - 1) * n == k * n - n && k * n >= n
    ensures k == 0 ==> k * n == 0
  {
  }

  /** A sub-multiset as large as the multiset is the multiset. */
  lemma MultisetSubsetEqual<T>(a: multiset<T>, b: multiset<T>)
    requires a <= b && |a| == |b|
    ensures a == b
  {
    var d := b - a;
    assert b == a + d;
    assert |d| == 0;
  }

  /**
   * Half-way through dealing: `done` is complete blocks, and the block being
   * dealt, `cur`, and what is left of the deck together make up `s`.
   */
  ghost predicate Dealing<T>(done: seq<T>, cur: seq<T>, deck: seq<T>, s: seq<T>)
  {
    |s| > 0 && Blocks(done, s) && multiset(cur) + multiset(deck) == multiset(s) && |cur| + |deck| == |s|
  }

  /** A fresh deck. */
  lemma DealStart<T>(s: seq<T>)
    requires |s| > 0
    ensures Dealing([], [], s, s)
  {
  }

  /** An empty deck is refilled: the block just dealt is complete. */
  lemma DealRefill<T>(done: seq<T>, cur: seq<T>, s: seq<T>)
    requires Dealing(done, cur, [], s)
    ensures Dealing(done + cur, [], s, s)
  {
    BlocksAppend(done, cur, s);
  }

  /** Moving card `j` from the deck to the block being dealt. */
  lemma DealOne<T>(done: seq<T>, cur: seq<T>, deck: seq<T>, j: nat, s: seq<T>)
    requires Dealing(done, cur, deck, s) && j < |deck|
    ensures Dealing(done, cur + [deck[j]], RemoveAt(deck, j), s)
  {
  }

  /** Whatever has been dealt so far is dealt from `s`, and holds only cards of `s`. */
  lemma DealStop<T>(done: seq<T>, cur: seq<T>, deck: seq<T>, s: seq<T>)
    requires Dealing(done, cur, deck, s)
    ensures Dealt(done + cur, s)
    ensures forall x :: x in done + cur ==> x in s
  {
    DealtAppend(done, cur, s);
    forall x | x in done + cur
      ensures x in s
    {
      DealtMembers(done + cur, s, x);
    }
  }

  /**
   * `randomUniqueSelection(length:)`: `length` picks, each popped from a copy
   * of the array that is refilled only once it is empty. A negative `length`
   * traps in the source (`0..<length`), so `length` is a `nat` here.
   */
  method RandomUniqueSelection<T(==)>(s: seq<T>, length: nat, rng: (nat, int) -> int) returns (r: Option<seq<T>>)
    requires IsRandomStream(rng) && |s| <= UInt32Max + 1
    ensures r.None? <==> |s| == 0
    ensures r.Some? ==> |r.value| == length && Dealt(r.value, s)
    ensures r.Some? ==> forall x :: x in r.value ==> x in s
  {
    hide Dealt, Dealing, RemoveAt;
    if |s| == 0 {
      return None;
    }
    DealStart(s);
    var deck := s;
    var result: seq<T> := [];
    ghost var done: seq<T> := [];
    ghost var cur: seq<T> := [];
    var i := 0;
    while i < length
      invariant 0 <= i <= length && |result| == i
      invariant result == done + cur && |deck| <= |s|
      invariant Dealing(done, cur, deck, s)
    {
      if |deck| == 0 {
        DealRefill(done, cur, s);
        done, cur := done + cur, [];
        deck := s;
      }
      ghost var j := RandomAt(rng, i)(|deck| - 1);
      var rest, item := PopRandom(deck, RandomAt(rng, i));
      DealOne(done, cur, deck, j, s);
      result := result + [item.value];
      cur := cur + [item.value];
      deck := rest;
      i := i + 1;
    }
    DealStop(done, cur, deck, s);
    return Some(result);
  }
}
