/**
 * The few string operations the package relies on: rendering an integer in
 * decimal (`"\(n)"`), `replacingOccurrences(of:with:)` and `joined(separator:)`.
 * Strings are sequences of characters; Unicode equivalence is not modelled.
 */
module Texts {

  /** The character for a decimal digit. */
  function DigitChar(d: nat): (c: char)
    requires d < 10
    ensures '0' <= c <= '9'
  {
    "0123456789"[d]
  }

  /** The digit a decimal character stands for. */
  function DigitValue(c: char): (d: nat)
    ensures d < 10
    ensures '0' <= c <= '9' ==> DigitChar(d) == c
  {
    if '0' <= c <= '9' then (c as int - '0' as int) as nat else 0
  }

  /** A natural number in decimal, without leading zeros. */
  function Decimal(n: nat): (s: string)
    ensures |s| > 0 && forall i :: 0 <= i < |s| ==> '0' <= s[i] <= '9'
    decreases n
  {
    if n < 10 then [DigitChar(n)] else Decimal(n / 10) + [DigitChar(n % 10)]
  }

  /** An integer in decimal, as Swift prints an `Int`: a minus sign before a negative one. */
  function IntDecimal(n: int): (s: string)
    ensures |s| > 0
  {
    if n < 0 then "-" + Decimal(-n) else Decimal(n)
  }

  /** The number a string of decimal digits stands for. */
  function DigitsValue(s: string): nat
    decreases |s|
  {
    if s == [] then 0 else DigitsValue(s[..|s| - 1]) * 10 + DigitValue(s[|s| - 1])
  }

  /** Reading a rendered number back gives the number: rendering loses nothing, so different numbers render differently. */
  lemma {:induction false} DecimalRoundTrip(n: nat)
    ensures DigitsValue(Decimal(n)) == n
    decreases n
  {
    var s := Decimal(n);
    if n < 10 {
      assert s[..0] == [];
    } else {
      DecimalRoundTrip(n / 10);
      assert s[..|s| - 1] == Decimal(n / 10);
      assert DigitValue(s[|s| - 1]) == n % 10 by {
        DigitRoundTrip(n % 10);
      }
      DivMod10(n);
    }
  }

  lemma DigitRoundTrip(d: nat)
    requires d < 10
    ensures DigitValue(DigitChar(d)) == d
  {
  }

  lemma DivMod10(n: nat)
    ensures (n / 10) * 10 + n % 10 == n
  {
  }

  /** Rendering is one to one. */
  lemma DecimalInjective(m: nat, n: nat)
    ensures Decimal(m) == Decimal(n) ==> m == n
  {
    DecimalRoundTrip(m);
    DecimalRoundTrip(n);
  }

  /** `pat` occurs in `s` at position `i`. */
  predicate OccursAt(pat: string, s: string, i: nat)
  {
    i + |pat| <= |s| && s[i..i + |pat|] == pat
  }

  /**
   * `s.replacingOccurrences(of: pat, with: rep)`: scanning from the left,
   * every occurrence of `pat` that does not overlap one already replaced
   * becomes `rep`.
   */
  function ReplaceAll(s: string, pat: string, rep: string): string
    requires |pat| > 0
    decreases |s|
  {
    if |s| < |pat| then s
    else if s[..|pat|] == pat then rep + ReplaceAll(s[|pat|..], pat, rep)
    else [s[0]] + ReplaceAll(s[1..], pat, rep)
  }

  /** A string in which `pat` does not occur is left as it is. */
  lemma {:induction false} ReplaceAbsent(s: string, pat: string, rep: string)
    requires |pat| > 0
    requires forall i: nat :: !OccursAt(pat, s, i)
    ensures ReplaceAll(s, pat, rep) == s
    decreases |s|
  {
    if |s| >= |pat| {
      assert !OccursAt(pat, s, 0);
      assert s[..|pat|] == s[0..|pat|];
      forall i: nat
        ensures !OccursAt(pat, s[1..], i)
      {
        assert !OccursAt(pat, s, i + 1);
        if i + |pat| <= |s[1..]| {
          assert s[1..][i..i + |pat|] == s[i + 1..i + 1 + |pat|];
        }
      }
      ReplaceAbsent(s[1..], pat, rep);
      assert s == [s[0]] + s[1..];
    }
  }

  /** The pattern itself becomes the replacement. */
  lemma ReplaceWhole(pat: string, rep: string)
    requires |pat| > 0
    ensures ReplaceAll(pat, pat, rep) == rep
  {
    assert pat[..|pat|] == pat && pat[|pat|..] == [];
    assert rep + [] == rep;
  }

  /** Replacing in a concatenation whose first part ends just before an occurrence. */
  lemma ReplacePrefix(pat: string, rest: string, rep: string)
    requires |pat| > 0
    ensures ReplaceAll(pat + rest, pat, rep) == rep + ReplaceAll(rest, pat, rep)
  {
    var s := pat + rest;
    assert s[..|pat|] == pat && s[|pat|..] == rest;
  }

  /** The parts with `sep` between each pair of neighbours. */
  function Join(parts: seq<string>, sep: string): string
  {
    if |parts| == 0 then ""
    else if |parts| == 1 then parts[0]
    else Join(parts[..|parts| - 1], sep) + sep + parts[|parts| - 1]
  }

  /** Joining adds one separator between each pair of neighbours and nothing else. */
  lemma {:induction false} JoinLength(parts: seq<string>, sep: string)
    requires |parts| > 0
    ensures |Join(parts, sep)| == Lengths(parts) + (|parts| - 1) * |sep|
    decreases |parts|
  {
    if |parts| > 1 {
      JoinLength(parts[..|parts| - 1], sep);
    }
  }

  /** The total length of some strings. */
  function Lengths(parts: seq<string>): nat
  {
    if |parts| == 0 then 0 else Lengths(parts[..|parts| - 1]) + |parts[|parts| - 1]|
  }

  /** Each part sits in the joined string after the parts before it and one separator for each of them. */
  lemma {:induction false} JoinPlacement(parts: seq<string>, sep: string, i: nat)
    requires i < |parts|
    ensures OccursAt(parts[i], Join(parts, sep), Lengths(parts[..i]) + i * |sep|)
    decreases |parts|
  {
    var n := |parts|;
    if n == 1 {
      assert parts[..0] == [];
    } else if i == n - 1 {
      JoinLast(parts, sep);
    } else {
      var front := parts[..n - 1];
      JoinPlacement(front, sep, i);
      assert front[..i] == parts[..i] && front[i] == parts[i];
      JoinExtends(parts, sep, Lengths(parts[..i]) + i * |sep|, |parts[i]|);
    }
  }

  /** The last part ends the joined string. */
  lemma JoinLast(parts: seq<string>, sep: string)
    requires |parts| > 1
    ensures OccursAt(parts[|parts| - 1], Join(parts, sep), Lengths(parts[..|parts| - 1]) + (|parts| - 1) * |sep|)
  {
    var n := |parts|;
    var front, last := parts[..n - 1], parts[n - 1];
    assert Join(parts, sep) == Join(front, sep) + sep + last;
    JoinLength(front, sep);
    MulStep(n - 2, |sep|);
    hide Join, Lengths;
    var jf := Join(front, sep);
    var p := |jf| + |sep|;
    assert (jf + sep + last)[p..p + |last|] == last;
  }

  lemma MulStep(k: nat, m: nat)
    ensures (k + 1) * m == k * m + m
  {
  }

  /** What lies within the join of all but the last part lies at the same place in the join of all. */
  lemma JoinExtends(parts: seq<string>, sep: string, p: nat, len: nat)
    requires |parts| > 1
    requires p + len <= |Join(parts[..|parts| - 1], sep)|
    ensures Join(parts, sep)[p..p + len] == Join(parts[..|parts| - 1], sep)[p..p + len]
  {
  }
}
