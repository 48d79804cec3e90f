/**
 The Wordle feedback labeller of pokemon_wordle.py (`judge`), without its
 coloured printing: two equal-length strings, the hidden target and the
 player's answer, are turned into one label per answer position.

 Pass 1 marks exact-position matches green and blanks those slots in a copy
 of the target (`remaining`). Pass 2 walks the answer left to right; a
 non-green character still present in `remaining` is yellow and its first
 occurrence there is blanked. Every other position is white.
 */
module Feedback {

  /** The three colours `judge` prints: green (right place), yellow (present
      elsewhere), white (no credit, shown as a dot). */
  datatype Label = Green | Yellow | White

  /** One slot of `remaining`: a target character not yet credited, or the
      empty string the source writes over a credited slot. */
  datatype Slot = Blank | Letter(ch: char)

  /** The result of `judge`: the labels, or the ValueError it raises when
      the two strings differ in length. */
  datatype Judgement = Labelled(labels: seq<Label>) | LengthMismatch

  /** Pass 1: whether each position is an exact match. */
  function GreenMask(target: string, answer: string): (m: seq<bool>)
    requires |target| == |answer|
    ensures |m| == |answer|
    ensures forall i :: 0 <= i < |m| ==> (m[i] <==> target[i] == answer[i])
  {
    seq(|answer|, i requires 0 <= i < |answer| => target[i] == answer[i])
  }

  /** The copy of the target left after pass 1: green slots are blanked. */
  function InitialRemaining(target: string, answer: string): (r: seq<Slot>)
    requires |target| == |answer|
    ensures |r| == |target|
    ensures forall k :: 0 <= k < |r| ==> (r[k] == Blank <==> GreenMask(target, answer)[k])
    ensures forall k :: 0 <= k < |r| && r[k] != Blank ==> r[k] == Letter(target[k])
  {
    seq(|target|, k requires 0 <= k < |target| =>
      if target[k] == answer[k] then Blank else Letter(target[k]))
  }

  /** Python's `list.index`: the first position holding `x`. */
  function FirstIndex(r: seq<Slot>, x: Slot): (k: nat)
    requires x in r
    ensures k < |r| && r[k] == x
    ensures forall j :: 0 <= j < k ==> r[j] != x
  {
    if r[0] == x then 0 else 1 + FirstIndex(r[1..], x)
  }

  /** Credits one copy of `c`: its first slot in `remaining` is blanked. */
  function Claim(remaining: seq<Slot>, c: char): (r: seq<Slot>)
    requires Letter(c) in remaining
    ensures |r| == |remaining|
  {
    remaining[FirstIndex(remaining, Letter(c)) := Blank]
  }

  /** Claiming changes exactly one slot of `remaining`: the first one
      holding `c`, which becomes blank. */
  lemma ClaimBlanksFirstCopy(remaining: seq<Slot>, c: char)
    requires Letter(c) in remaining
    ensures forall j :: 0 <= j < |remaining| ==>
      Claim(remaining, c)[j] == remaining[j]
      || (remaining[j] == Letter(c) && Claim(remaining, c)[j] == Blank && Letter(c) !in remaining[..j])
    ensures Claim(remaining, c) != remaining
  {
    var k := FirstIndex(remaining, Letter(c));
    assert Letter(c) !in remaining[..k] by {
      assert forall j :: 0 <= j < k ==> remaining[..k][j] == remaining[j];
    }
    assert Claim(remaining, c)[k] != remaining[k];
  }

  /** Pass 2 from position `i` on, `remaining` holding the target characters
      not yet credited. Yields `is_yellow[i..]`. A position is yellow only
      when it is not green, and it then used up one remaining slot. */
  function YellowPass(green: seq<bool>, answer: string, remaining: seq<Slot>, i: nat): (y: seq<bool>)
    requires |green| == |answer| && i <= |answer|
    ensures |y| == |answer| - i
    ensures forall k :: 0 <= k < |y| && y[k] ==> !green[i + k]
    decreases |answer| - i
  {
    if i == |answer| then []
    else if green[i] then [false] + YellowPass(green, answer, remaining, i + 1)
    else if Letter(answer[i]) in remaining then
      [true] + YellowPass(green, answer, Claim(remaining, answer[i]), i + 1)
    else [false] + YellowPass(green, answer, remaining, i + 1)
  }

  /** `judge(target, answer)`: a length mismatch is an error; otherwise one
      label per answer position, green exactly at the exact matches. */
  function Judge(target: string, answer: string): (j: Judgement)
    ensures j.LengthMismatch? <==> |target| != |answer|
    ensures j.Labelled? ==> |j.labels| == |answer|
    ensures j.Labelled? ==>
      forall i :: 0 <= i < |answer| ==> (j.labels[i] == Green <==> target[i] == answer[i])
  {
    if |target| != |answer| then LengthMismatch
    else
      var green := GreenMask(target, answer);
      var yellow := YellowPass(green, answer, InitialRemaining(target, answer), 0);
      Labelled(seq(|answer|, i requires 0 <= i < |answer| =>
        if green[i] then Green else if yellow[i] then Yellow else White))
  }
}
