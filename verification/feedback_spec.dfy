/**
 What the labels of `Judge` mean, stated without `remaining`.

 `Reference` is a closed-form definition in counting terms: a position is
 green at an exact match; otherwise its character c earns yellow exactly
 when fewer misplaced occurrences of c appear earlier in the answer than
 the target has unmatched occurrences of c. `JudgeMatchesReference` proves
 the two-pass algorithm computes it; the remaining lemmas derive the
 multiset semantics, the left-to-right credit rule and the all-green and
 all-yellow cases from it.
 */
module FeedbackSpec {
  import opened Counting
  import opened Feedback

  function Min(x: int, y: int): int
  {
    if x <= y then x else y
  }

  /** Misplaced occurrences of `c` in the answer strictly before position `i`. */
  function EarlierMisplaced(target: string, answer: string, c: char, i: nat): nat
    requires |target| == |answer| && i <= |answer|
  {
    Misplaced(answer[..i], target[..i], c)
  }

  /** The label position `i` deserves, in counting terms. */
  function ReferenceLabel(target: string, answer: string, i: nat): Label
    requires |target| == |answer| && i < |answer|
  {
    var c := answer[i];
    if target[i] == c then Green
    else if EarlierMisplaced(target, answer, c, i) < Misplaced(target, answer, c) then Yellow
    else White
  }

  function Reference(target: string, answer: string): seq<Label>
    requires |target| == |answer|
  {
    seq(|answer|, i requires 0 <= i < |answer| => ReferenceLabel(target, answer, i))
  }

  /** Answer positions holding `c` that are labelled yellow. */
  function Yellows(labels: seq<Label>, answer: string, c: char): nat
    requires |labels| == |answer|
  {
    if |answer| == 0 then 0
    else
      var n := |answer| - 1;
      Yellows(labels[..n], answer[..n], c) + (if answer[n] == c && labels[n] == Yellow then 1 else 0)
  }

  /** Answer positions holding `c` that earn credit (green or yellow). */
  function Credited(labels: seq<Label>, answer: string, c: char): nat
    requires |labels| == |answer|
  {
    if |answer| == 0 then 0
    else
      var n := |answer| - 1;
      Credited(labels[..n], answer[..n], c) + (if answer[n] == c && labels[n] != White then 1 else 0)
  }

  /** Unclaimed target characters `c` in pass 2 just before position `i`:
      the unmatched ones minus those already spent on earlier yellows. */
  function Available(target: string, answer: string, c: char, i: nat): nat
    requires |target| == |answer| && i <= |answer|
  {
    var spent := EarlierMisplaced(target, answer, c, i);
    var unmatched := Misplaced(target, answer, c);
    if spent < unmatched then unmatched - spent else 0
  }

  /** Slots of `remaining` still holding `c`. */
  function Occurrences(remaining: seq<Slot>, c: char): nat
  {
    multiset(remaining)[Letter(c)]
  }

  lemma EarlierMisplacedStep(target: string, answer: string, c: char, i: nat)
    requires |target| == |answer| && i < |answer|
    ensures EarlierMisplaced(target, answer, c, i + 1)
         == EarlierMisplaced(target, answer, c, i) + (if answer[i] != target[i] && answer[i] == c then 1 else 0)
  {
    assert answer[..i + 1][..i] == answer[..i];
    assert target[..i + 1][..i] == target[..i];
  }

  /** After pass 1, `remaining` holds exactly the unmatched target characters. */
  lemma {:induction false} InitialRemainingOccurrences(target: string, answer: string, c: char)
    requires |target| == |answer|
    ensures Occurrences(InitialRemaining(target, answer), c) == Misplaced(target, answer, c)
  {
    if |target| > 0 {
      var n := |target| - 1;
      InitialRemainingOccurrences(target[..n], answer[..n], c);
      var r := InitialRemaining(target, answer);
      assert r == InitialRemaining(target[..n], answer[..n]) + [r[n]];
    }
  }

  /** One step of pass 2 on the counting side: a non-green occurrence of
      `d` at position `i` uses up one available copy of `d`, if any. */
  lemma AvailableStep(target: string, answer: string, d: char, i: nat)
    requires |target| == |answer| && i < |answer|
    ensures Available(target, answer, d, i + 1)
         == if answer[i] != target[i] && answer[i] == d && Available(target, answer, d, i) > 0
            then Available(target, answer, d, i) - 1
            else Available(target, answer, d, i)
  {
    EarlierMisplacedStep(target, answer, d, i);
  }

  /** Blanking a slot removes one copy of the character it held. */
  lemma SpendOccurrences(remaining: seq<Slot>, k: nat, d: char)
    requires k < |remaining|
    ensures Occurrences(remaining[k := Blank], d)
         == Occurrences(remaining, d) - (if remaining[k] == Letter(d) then 1 else 0)
  {
    assert multiset(remaining[k := Blank]) == multiset(remaining) - multiset{remaining[k]} + multiset{Blank};
  }

  /** The counting rule for yellow at position `k`. */
  predicate EarnsYellow(target: string, answer: string, k: nat)
    requires |target| == |answer| && k < |answer|
  {
    target[k] != answer[k] && EarlierMisplaced(target, answer, answer[k], k) < Misplaced(target, answer, answer[k])
  }

  /** `remaining` holds, for every character, exactly its `Available` copies. */
  predicate Tracks(target: string, answer: string, remaining: seq<Slot>, i: nat)
    requires |target| == |answer| && i <= |answer|
  {
    forall c :: Occurrences(remaining, c) == Available(target, answer, c, i)
  }

  /** One step of pass 2 keeps `Tracks`, and the step's yellow decision is
      the counting rule. */
  lemma PassStepKeepsTracks(target: string, answer: string, remaining: seq<Slot>, i: nat)
    requires |target| == |answer| && i < |answer|
    requires Tracks(target, answer, remaining, i)
    ensures var c := answer[i];
      var here := target[i] != c && Letter(c) in remaining;
      && (here <==> EarnsYellow(target, answer, i))
      && Tracks(target, answer, if here then Claim(remaining, c) else remaining, i + 1)
  {
    var c := answer[i];
    var here := target[i] != c && Letter(c) in remaining;
    assert Letter(c) in remaining <==> Occurrences(remaining, c) > 0;
    assert Occurrences(remaining, c) == Available(target, answer, c, i);
    var next := if here then Claim(remaining, c) else remaining;
    forall d ensures Occurrences(next, d) == Available(target, answer, d, i + 1) {
      AvailableStep(target, answer, d, i);
      assert Occurrences(remaining, d) == Available(target, answer, d, i);
      if here {
        SpendOccurrences(remaining, FirstIndex(remaining, Letter(c)), d);
      }
    }
  }

  /** The invariant of pass 2: while `remaining` holds `Available` copies of
      every character, each later position is yellow exactly when it earns
      yellow by the counting rule. */
  lemma {:induction false} YellowPassAgrees(target: string, answer: string, remaining: seq<Slot>, i: nat)
    requires |target| == |answer| && i <= |answer|
    requires Tracks(target, answer, remaining, i)
    ensures var y := YellowPass(GreenMask(target, answer), answer, remaining, i);
      forall k :: i <= k < |answer| ==> (y[k - i] <==> EarnsYellow(target, answer, k))
    decreases |answer| - i
  {
    if i < |answer| {
      var green := GreenMask(target, answer);
      var c := answer[i];
      PassStepKeepsTracks(target, answer, remaining, i);
      var here := target[i] != c && Letter(c) in remaining;
      var next := if here then Claim(remaining, c) else remaining;
      YellowPassAgrees(target, answer, next, i + 1);
      var y := YellowPass(green, answer, remaining, i);
      var rest := YellowPass(green, answer, next, i + 1);
      assert y == [here] + rest;
      forall k | i <= k < |answer| ensures y[k - i] <==> EarnsYellow(target, answer, k) {
        if k > i {
          assert y[k - i] == rest[k - (i + 1)];
        }
      }
    }
  }

  /** The two-pass algorithm computes the counting definition. */
  lemma JudgeMatchesReference(target: string, answer: string)
    requires |target| == |answer|
    ensures Judge(target, answer) == Labelled(Reference(target, answer))
  {
    forall c ensures Occurrences(InitialRemaining(target, answer), c) == Available(target, answer, c, 0) {
      InitialRemainingOccurrences(target, answer, c);
    }
    assert Tracks(target, answer, InitialRemaining(target, answer), 0);
    YellowPassAgrees(target, answer, InitialRemaining(target, answer), 0);
    var labels := Judge(target, answer).labels;
    forall i | 0 <= i < |answer| ensures labels[i] == ReferenceLabel(target, answer, i) {
      assert EarnsYellow(target, answer, i) ==> target[i] != answer[i];
    }
  }

  /** Over every prefix of the answer: yellows for `c` are the earlier
      misplaced occurrences capped by the unmatched target occurrences, and
      credit is the exact matches plus those yellows. */
  lemma {:induction false} ReferencePrefixCounts(target: string, answer: string, c: char, i: nat)
    requires |target| == |answer| && i <= |answer|
    ensures var labels := Reference(target, answer);
      && Yellows(labels[..i], answer[..i], c)
         == Min(EarlierMisplaced(target, answer, c, i), Misplaced(target, answer, c))
      && Credited(labels[..i], answer[..i], c)
         == Matched(target[..i], answer[..i], c) + Yellows(labels[..i], answer[..i], c)
  {
    var labels := Reference(target, answer);
    if i > 0 {
      var n := i - 1;
      ReferencePrefixCounts(target, answer, c, n);
      EarlierMisplacedStep(target, answer, c, n);
      assert labels[..i][..n] == labels[..n];
      assert answer[..i][..n] == answer[..n];
      assert target[..i][..n] == target[..n];
    }
  }

  /** Yellow credit is handed out left to right: a non-green position is
      yellow exactly when fewer earlier positions with its character are
      yellow than the target has unmatched copies of that character. */
  lemma YellowCreditLeftToRight(target: string, answer: string, i: nat)
    requires |target| == |answer| && i < |answer|
    requires target[i] != answer[i]
    ensures var labels := Judge(target, answer).labels;
      labels[i] == Yellow <==> Yellows(labels[..i], answer[..i], answer[i]) < Misplaced(target, answer, answer[i])
  {
    JudgeMatchesReference(target, answer);
    ReferencePrefixCounts(target, answer, answer[i], i);
  }

  /** Multiset semantics: for every character, the answer positions earning
      credit number exactly the smaller of its counts in target and answer;
      in particular never more than the target holds. */
  lemma CreditIsMinOfCounts(target: string, answer: string, c: char)
    requires |target| == |answer|
    ensures var labels := Judge(target, answer).labels;
      Credited(labels, answer, c) == Min(Count(target, c), Count(answer, c))
  {
    var n := |answer|;
    JudgeMatchesReference(target, answer);
    var labels := Reference(target, answer);
    ReferencePrefixCounts(target, answer, c, n);
    assert labels[..n] == labels;
    assert answer[..n] == answer;
    assert target[..n] == target;
    CountSplits(target, answer, c);
    CountSplits(answer, target, c);
    MatchedSymmetric(answer, target, c);
  }

  /** Every position is green exactly when the answer is the target. */
  lemma AllGreenIffIdentical(target: string, answer: string)
    requires |target| == |answer|
    ensures Judge(target, answer) == Labelled(seq(|answer|, _ => Green)) <==> target == answer
  {
    var labels := Judge(target, answer).labels;
    if labels == seq(|answer|, _ => Green) {
      assert forall i :: 0 <= i < |answer| ==> labels[i] == Green;
    }
  }

  /** A rearrangement of the target's characters that fixes no position is
      labelled all yellow. */
  lemma DerangementAllYellow(target: string, answer: string)
    requires |target| == |answer|
    requires multiset(target) == multiset(answer)
    requires forall k :: 0 <= k < |answer| ==> target[k] != answer[k]
    ensures Judge(target, answer) == Labelled(seq(|answer|, _ => Yellow))
  {
    JudgeMatchesReference(target, answer);
    forall i | 0 <= i < |answer|
      ensures ReferenceLabel(target, answer, i) == Yellow
    {
      var c := answer[i];
      MisplacedWithoutMatches(answer[..i], target[..i], c);
      CountPrefix(answer, i, c);
      CountIsMultiplicity(answer, c);
      CountIsMultiplicity(target, c);
      MisplacedWithoutMatches(target, answer, c);
    }
  }

  /** Conversely, an all-yellow answer is a rearrangement of the target
      that fixes no position. */
  lemma AllYellowIsDerangement(target: string, answer: string)
    requires |target| == |answer|
    requires Judge(target, answer) == Labelled(seq(|answer|, _ => Yellow))
    ensures multiset(target) == multiset(answer)
    ensures forall k :: 0 <= k < |answer| ==> target[k] != answer[k]
  {
    forall c ensures multiset(answer)[c] <= multiset(target)[c] {
      AllYellowCopiesCovered(target, answer, c);
    }
    var rest := multiset(target) - multiset(answer);
    assert multiset(target) == multiset(answer) + rest;
    assert |rest| == 0;
  }

  /** Under an all-yellow labelling, every copy of `c` in the answer is
      credited, so the target has at least as many. */
  lemma AllYellowCopiesCovered(target: string, answer: string, c: char)
    requires |target| == |answer|
    requires Judge(target, answer) == Labelled(seq(|answer|, _ => Yellow))
    ensures multiset(answer)[c] <= multiset(target)[c]
  {
    var labels := Judge(target, answer).labels;
    assert forall k :: 0 <= k < |answer| ==> labels[k] == Yellow;
    CreditIsMinOfCounts(target, answer, c);
    AllCredited(labels, answer, c);
    CountIsMultiplicity(answer, c);
    CountIsMultiplicity(target, c);
  }


  /** With no white label, every occurrence of `c` earns credit. */
  lemma {:induction false} AllCredited(labels: seq<Label>, answer: string, c: char)
    requires |labels| == |answer|
    requires forall k :: 0 <= k < |labels| ==> labels[k] != White
    ensures Credited(labels, answer, c) == Count(answer, c)
  {
    if |answer| > 0 {
      var n := |answer| - 1;
      AllCredited(labels[..n], answer[..n], c);
    }
  }
}
