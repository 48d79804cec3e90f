/**
 Character counts over strings and over pairs of equal-length strings
 (a target and a guess), used to state the multiset semantics of the
 Wordle feedback. Every count is defined by recursion on the last
 position, so that extending a prefix by one position unfolds one step.
 */
module Counting {

  /** Number of positions of `s` holding `c`. */
  function Count(s: string, c: char): nat
  {
    if |s| == 0 then 0
    else Count(s[..|s| - 1], c) + (if s[|s| - 1] == c then 1 else 0)
  }

  /** Number of positions k where `x[k] == c` and `y[k]` differs from it:
      the occurrences of `c` in `x` that are not exact-position matches. */
  function Misplaced(x: string, y: string, c: char): nat
    requires |x| == |y|
  {
    if |x| == 0 then 0
    else
      var n := |x| - 1;
      Misplaced(x[..n], y[..n], c) + (if x[n] != y[n] && x[n] == c then 1 else 0)
  }

  /** Number of positions k where `x[k] == y[k] == c`. */
  function Matched(x: string, y: string, c: char): nat
    requires |x| == |y|
  {
    if |x| == 0 then 0
    else
      var n := |x| - 1;
      Matched(x[..n], y[..n], c) + (if x[n] == y[n] && x[n] == c then 1 else 0)
  }

  /** `Count` agrees with the built-in multiset of a sequence. */
  lemma {:induction false} CountIsMultiplicity(s: string, c: char)
    ensures Count(s, c) == multiset(s)[c]
  {
    if |s| > 0 {
      var n := |s| - 1;
      CountIsMultiplicity(s[..n], c);
      assert s == s[..n] + [s[n]];
    }
  }

  /** Every occurrence of `c` in `x` is either matched or misplaced. */
  lemma {:induction false} CountSplits(x: string, y: string, c: char)
    requires |x| == |y|
    ensures Count(x, c) == Matched(x, y, c) + Misplaced(x, y, c)
  {
    if |x| > 0 {
      var n := |x| - 1;
      CountSplits(x[..n], y[..n], c);
    }
  }

  /** Exact-position matches do not depend on which string is the target. */
  lemma {:induction false} MatchedSymmetric(x: string, y: string, c: char)
    requires |x| == |y|
    ensures Matched(x, y, c) == Matched(y, x, c)
  {
    if |x| > 0 {
      var n := |x| - 1;
      MatchedSymmetric(x[..n], y[..n], c);
    }
  }

  /** Without any exact-position match, every occurrence is misplaced. */
  lemma {:induction false} MisplacedWithoutMatches(x: string, y: string, c: char)
    requires |x| == |y|
    requires forall k :: 0 <= k < |x| ==> x[k] != y[k]
    ensures Misplaced(x, y, c) == Count(x, c)
  {
    if |x| > 0 {
      var n := |x| - 1;
      MisplacedWithoutMatches(x[..n], y[..n], c);
    }
  }

  /** A prefix holds no more occurrences than the whole string, and an
      occurrence at position i lies outside the prefix `s[..i]`. */
  lemma {:induction false} CountPrefix(s: string, i: nat, c: char)
    requires i < |s| && s[i] == c
    ensures Count(s[..i], c) < Count(s, c)
  {
    if i < |s| - 1 {
      var n := |s| - 1;
      assert s[..n][..i] == s[..i];
      CountPrefix(s[..n], i, c);
    } else {
      assert s[..|s| - 1] == s[..i];
    }
  }
}
