/**
 The label expectations of tests/test_game.py, stated against `Judge`.
 The test file calls its colours GREEN, YELLOW and WHITE; here they are
 the `Label` constructors of the same names. Each expectation is proved in
 two parts: a replay of pass 2, step by step from the `remaining` slots
 left by pass 1, and the assembly of the labels from the two passes.
 */
module TestVectors {
  import opened Feedback

  /** Assembles the labels of `Judge` from the results of the two passes. */
  lemma JudgeFromPasses(target: string, answer: string, green: seq<bool>, yellow: seq<bool>, expected: seq<Label>)
    requires |target| == |answer| == |expected|
    requires green == GreenMask(target, answer)
    requires yellow == YellowPass(green, answer, InitialRemaining(target, answer), 0)
    requires forall i :: 0 <= i < |expected| ==>
      expected[i] == (if green[i] then Green else if yellow[i] then Yellow else White)
    ensures Judge(target, answer) == Labelled(expected)
  {
  }

  /** Pass 2 has nothing left to do past the last position. */
  lemma EndStep(green: seq<bool>, answer: string, r: seq<Slot>)
    requires |green| == |answer|
    ensures YellowPass(green, answer, r, |answer|) == []
  {
  }

  /** A step of pass 2 that credits the copy of the answer's character in
      slot `k`, the first slot holding it. */
  lemma YellowStep(green: seq<bool>, answer: string, r: seq<Slot>, i: nat, k: nat)
    requires |green| == |answer| && i < |answer| && !green[i]
    requires k < |r| && r[k] == Letter(answer[i])
    requires Letter(answer[i]) !in r[..k]
    ensures YellowPass(green, answer, r, i) == [true] + YellowPass(green, answer, r[k := Blank], i + 1)
  {
    assert forall j :: 0 <= j < k ==> r[j] == r[..k][j];
    assert FirstIndex(r, Letter(answer[i])) == k;
  }

  /** A step of pass 2 that credits nothing: the position is green, or its
      character has no copy left. */
  lemma PlainStep(green: seq<bool>, answer: string, r: seq<Slot>, i: nat)
    requires |green| == |answer| && i < |answer|
    requires green[i] || Letter(answer[i]) !in r
    ensures YellowPass(green, answer, r, i) == [false] + YellowPass(green, answer, r, i + 1)
  {
  }

  /** Pass 2 for answer 'フシギダネ' against 'フシギダネ'. */
  lemma FushigidaneExactPass2()
    ensures YellowPass([true, true, true, true, true], "フシギダネ", [Blank, Blank, Blank, Blank, Blank], 0) == [false, false, false, false, false]
  {
    var green := [true, true, true, true, true];
    var answer := "フシギダネ";
    var r0: seq<Slot> := [Blank, Blank, Blank, Blank, Blank];
    PlainStep(green, answer, r0, 0);
    PlainStep(green, answer, r0, 1);
    PlainStep(green, answer, r0, 2);
    PlainStep(green, answer, r0, 3);
    PlainStep(green, answer, r0, 4);
    EndStep(green, answer, r0);
    assert YellowPass(green, answer, r0, 4) == [false];
    assert YellowPass(green, answer, r0, 3) == [false, false];
    assert YellowPass(green, answer, r0, 2) == [false, false, false];
    assert YellowPass(green, answer, r0, 1) == [false, false, false, false];
    assert YellowPass(green, answer, r0, 0) == [false, false, false, false, false];
  }

  /** Answer 'フシギダネ' against 'フシギダネ': an identical answer is all green. */
  lemma FushigidaneExact()
    ensures Judge("フシギダネ", "フシギダネ") == Labelled([Green, Green, Green, Green, Green])
  {
    FushigidaneExactPass2();
    var target, answer := "フシギダネ", "フシギダネ";
    assert [true, true, true, true, true] == GreenMask(target, answer);
    assert InitialRemaining(target, answer) == [Blank, Blank, Blank, Blank, Blank];
    JudgeFromPasses(target, answer, [true, true, true, true, true], [false, false, false, false, false], [Green, Green, Green, Green, Green]);
  }

  /** Pass 2 for answer 'フ・ギ・ネ' against 'フシギダネ'. */
  lemma FushigidaneDotsPass2()
    ensures YellowPass([true, false, true, false, true], "フ・ギ・ネ", [Blank, Letter('シ'), Blank, Letter('ダ'), Blank], 0) == [false, false, false, false, false]
  {
    var green := [true, false, true, false, true];
    var answer := "フ・ギ・ネ";
    var r0: seq<Slot> := [Blank, Letter('シ'), Blank, Letter('ダ'), Blank];
    PlainStep(green, answer, r0, 0);
    PlainStep(green, answer, r0, 1);
    PlainStep(green, answer, r0, 2);
    PlainStep(green, answer, r0, 3);
    PlainStep(green, answer, r0, 4);
    EndStep(green, answer, r0);
    assert YellowPass(green, answer, r0, 4) == [false];
    assert YellowPass(green, answer, r0, 3) == [false, false];
    assert YellowPass(green, answer, r0, 2) == [false, false, false];
    assert YellowPass(green, answer, r0, 1) == [false, false, false, false];
    assert YellowPass(green, answer, r0, 0) == [false, false, false, false, false];
  }

  /** Answer 'フ・ギ・ネ' against 'フシギダネ': characters absent from the target are white. */
  lemma FushigidaneDots()
    ensures Judge("フシギダネ", "フ・ギ・ネ") == Labelled([Green, White, Green, White, Green])
  {
    FushigidaneDotsPass2();
    var target, answer := "フシギダネ", "フ・ギ・ネ";
    assert [true, false, true, false, true] == GreenMask(target, answer);
    assert InitialRemaining(target, answer) == [Blank, Letter('シ'), Blank, Letter('ダ'), Blank];
    JudgeFromPasses(target, answer, [true, false, true, false, true], [false, false, false, false, false], [Green, White, Green, White, Green]);
  }

  /** Pass 2 for answer 'ネフシギダ' against 'フシギダネ'. */
  lemma FushigidaneRotationPass2()
    ensures YellowPass([false, false, false, false, false], "ネフシギダ", [Letter('フ'), Letter('シ'), Letter('ギ'), Letter('ダ'), Letter('ネ')], 0) == [true, true, true, true, true]
  {
    var green := [false, false, false, false, false];
    var answer := "ネフシギダ";
    var r0: seq<Slot> := [Letter('フ'), Letter('シ'), Letter('ギ'), Letter('ダ'), Letter('ネ')];
    YellowStep(green, answer, r0, 0, 4);
    var r1 := r0[4 := Blank];
    YellowStep(green, answer, r1, 1, 0);
    var r2 := r1[0 := Blank];
    YellowStep(green, answer, r2, 2, 1);
    var r3 := r2[1 := Blank];
    YellowStep(green, answer, r3, 3, 2);
    var r4 := r3[2 := Blank];
    YellowStep(green, answer, r4, 4, 3);
    var r5 := r4[3 := Blank];
    EndStep(green, answer, r5);
    assert YellowPass(green, answer, r4, 4) == [true];
    assert YellowPass(green, answer, r3, 3) == [true, true];
    assert YellowPass(green, answer, r2, 2) == [true, true, true];
    assert YellowPass(green, answer, r1, 1) == [true, true, true, true];
    assert YellowPass(green, answer, r0, 0) == [true, true, true, true, true];
  }

  /** Answer 'ネフシギダ' against 'フシギダネ': a rotation fixes no position, so all are yellow. */
  lemma FushigidaneRotation()
    ensures Judge("フシギダネ", "ネフシギダ") == Labelled([Yellow, Yellow, Yellow, Yellow, Yellow])
  {
    FushigidaneRotationPass2();
    var target, answer := "フシギダネ", "ネフシギダ";
    assert [false, false, false, false, false] == GreenMask(target, answer);
    assert InitialRemaining(target, answer) == [Letter('フ'), Letter('シ'), Letter('ギ'), Letter('ダ'), Letter('ネ')];
    JudgeFromPasses(target, answer, [false, false, false, false, false], [true, true, true, true, true], [Yellow, Yellow, Yellow, Yellow, Yellow]);
  }

  /** Pass 2 for answer 'ネフシギギ' against 'フシギダネ'. */
  lemma FushigidaneSurplusGiPass2()
    ensures YellowPass([false, false, false, false, false], "ネフシギギ", [Letter('フ'), Letter('シ'), Letter('ギ'), Letter('ダ'), Letter('ネ')], 0) == [true, true, true, true, false]
  {
    var green := [false, false, false, false, false];
    var answer := "ネフシギギ";
    var r0: seq<Slot> := [Letter('フ'), Letter('シ'), Letter('ギ'), Letter('ダ'), Letter('ネ')];
    YellowStep(green, answer, r0, 0, 4);
    var r1 := r0[4 := Blank];
    YellowStep(green, answer, r1, 1, 0);
    var r2 := r1[0 := Blank];
    YellowStep(green, answer, r2, 2, 1);
    var r3 := r2[1 := Blank];
    YellowStep(green, answer, r3, 3, 2);
    var r4 := r3[2 := Blank];
    PlainStep(green, answer, r4, 4);
    EndStep(green, answer, r4);
    assert YellowPass(green, answer, r4, 4) == [false];
    assert YellowPass(green, answer, r3, 3) == [true, false];
    assert YellowPass(green, answer, r2, 2) == [true, true, false];
    assert YellowPass(green, answer, r1, 1) == [true, true, true, false];
    assert YellowPass(green, answer, r0, 0) == [true, true, true, true, false];
  }

  /** Answer 'ネフシギギ' against 'フシギダネ': a second ギ finds no copy left. */
  lemma FushigidaneSurplusGi()
    ensures Judge("フシギダネ", "ネフシギギ") == Labelled([Yellow, Yellow, Yellow, Yellow, White])
  {
    FushigidaneSurplusGiPass2();
    var target, answer := "フシギダネ", "ネフシギギ";
    assert [false, false, false, false, false] == GreenMask(target, answer);
    assert InitialRemaining(target, answer) == [Letter('フ'), Letter('シ'), Letter('ギ'), Letter('ダ'), Letter('ネ')];
    JudgeFromPasses(target, answer, [false, false, false, false, false], [true, true, true, true, false], [Yellow, Yellow, Yellow, Yellow, White]);
  }

  /** Pass 2 for answer 'フフフネギ' against 'フシギダネ'. */
  lemma FushigidaneTripleFuPass2()
    ensures YellowPass([true, false, false, false, false], "フフフネギ", [Blank, Letter('シ'), Letter('ギ'), Letter('ダ'), Letter('ネ')], 0) == [false, false, false, true, true]
  {
    var green := [true, false, false, false, false];
    var answer := "フフフネギ";
    var r0: seq<Slot> := [Blank, Letter('シ'), Letter('ギ'), Letter('ダ'), Letter('ネ')];
    PlainStep(green, answer, r0, 0);
    PlainStep(green, answer, r0, 1);
    PlainStep(green, answer, r0, 2);
    YellowStep(green, answer, r0, 3, 4);
    var r4 := r0[4 := Blank];
    YellowStep(green, answer, r4, 4, 2);
    var r5 := r4[2 := Blank];
    EndStep(green, answer, r5);
    assert YellowPass(green, answer, r4, 4) == [true];
    assert YellowPass(green, answer, r0, 3) == [true, true];
    assert YellowPass(green, answer, r0, 2) == [false, true, true];
    assert YellowPass(green, answer, r0, 1) == [false, false, true, true];
    assert YellowPass(green, answer, r0, 0) == [false, false, false, true, true];
  }

  /** Answer 'フフフネギ' against 'フシギダネ': the green フ uses up the only フ. */
  lemma FushigidaneTripleFu()
    ensures Judge("フシギダネ", "フフフネギ") == Labelled([Green, White, White, Yellow, Yellow])
  {
    FushigidaneTripleFuPass2();
    var target, answer := "フシギダネ", "フフフネギ";
    assert [true, false, false, false, false] == GreenMask(target, answer);
    assert InitialRemaining(target, answer) == [Blank, Letter('シ'), Letter('ギ'), Letter('ダ'), Letter('ネ')];
    JudgeFromPasses(target, answer, [true, false, false, false, false], [false, false, false, true, true], [Green, White, White, Yellow, Yellow]);
  }

  /** Pass 2 for answer 'ゴーリキー' against 'ゴーリキー'. */
  lemma GorikyExactPass2()
    ensures YellowPass([true, true, true, true, true], "ゴーリキー", [Blank, Blank, Blank, Blank, Blank], 0) == [false, false, false, false, false]
  {
    var green := [true, true, true, true, true];
    var answer := "ゴーリキー";
    var r0: seq<Slot> := [Blank, Blank, Blank, Blank, Blank];
    PlainStep(green, answer, r0, 0);
    PlainStep(green, answer, r0, 1);
    PlainStep(green, answer, r0, 2);
    PlainStep(green, answer, r0, 3);
    PlainStep(green, answer, r0, 4);
    EndStep(green, answer, r0);
    assert YellowPass(green, answer, r0, 4) == [false];
    assert YellowPass(green, answer, r0, 3) == [false, false];
    assert YellowPass(green, answer, r0, 2) == [false, false, false];
    assert YellowPass(green, answer, r0, 1) == [false, false, false, false];
    assert YellowPass(green, answer, r0, 0) == [false, false, false, false, false];
  }

  /** Answer 'ゴーリキー' against 'ゴーリキー': an identical answer is all green. */
  lemma GorikyExact()
    ensures Judge("ゴーリキー", "ゴーリキー") == Labelled([Green, Green, Green, Green, Green])
  {
    GorikyExactPass2();
    var target, answer := "ゴーリキー", "ゴーリキー";
    assert [true, true, true, true, true] == GreenMask(target, answer);
    assert InitialRemaining(target, answer) == [Blank, Blank, Blank, Blank, Blank];
    JudgeFromPasses(target, answer, [true, true, true, true, true], [false, false, false, false, false], [Green, Green, Green, Green, Green]);
  }

  /** Pass 2 for answer 'ゴ・リ・ー' against 'ゴーリキー'. */
  lemma GorikyDotsPass2()
    ensures YellowPass([true, false, true, false, true], "ゴ・リ・ー", [Blank, Letter('ー'), Blank, Letter('キ'), Blank], 0) == [false, false, false, false, false]
  {
    var green := [true, false, true, false, true];
    var answer := "ゴ・リ・ー";
    var r0: seq<Slot> := [Blank, Letter('ー'), Blank, Letter('キ'), Blank];
    PlainStep(green, answer, r0, 0);
    PlainStep(green, answer, r0, 1);
    PlainStep(green, answer, r0, 2);
    PlainStep(green, answer, r0, 3);
    PlainStep(green, answer, r0, 4);
    EndStep(green, answer, r0);
    assert YellowPass(green, answer, r0, 4) == [false];
    assert YellowPass(green, answer, r0, 3) == [false, false];
    assert YellowPass(green, answer, r0, 2) == [false, false, false];
    assert YellowPass(green, answer, r0, 1) == [false, false, false, false];
    assert YellowPass(green, answer, r0, 0) == [false, false, false, false, false];
  }

  /** Answer 'ゴ・リ・ー' against 'ゴーリキー': characters absent from the target are white. */
  lemma GorikyDots()
    ensures Judge("ゴーリキー", "ゴ・リ・ー") == Labelled([Green, White, Green, White, Green])
  {
    GorikyDotsPass2();
    var target, answer := "ゴーリキー", "ゴ・リ・ー";
    assert [true, false, true, false, true] == GreenMask(target, answer);
    assert InitialRemaining(target, answer) == [Blank, Letter('ー'), Blank, Letter('キ'), Blank];
    JudgeFromPasses(target, answer, [true, false, true, false, true], [false, false, false, false, false], [Green, White, Green, White, Green]);
  }

  /** Pass 2 for answer 'ーゴーリキ' against 'ゴーリキー'. */
  lemma GorikyRotationPass2()
    ensures YellowPass([false, false, false, false, false], "ーゴーリキ", [Letter('ゴ'), Letter('ー'), Letter('リ'), Letter('キ'), Letter('ー')], 0) == [true, true, true, true, true]
  {
    var green := [false, false, false, false, false];
    var answer := "ーゴーリキ";
    var r0: seq<Slot> := [Letter('ゴ'), Letter('ー'), Letter('リ'), Letter('キ'), Letter('ー')];
    YellowStep(green, answer, r0, 0, 1);
    var r1 := r0[1 := Blank];
    YellowStep(green, answer, r1, 1, 0);
    var r2 := r1[0 := Blank];
    YellowStep(green, answer, r2, 2, 4);
    var r3 := r2[4 := Blank];
    YellowStep(green, answer, r3, 3, 2);
    var r4 := r3[2 := Blank];
    YellowStep(green, answer, r4, 4, 3);
    var r5 := r4[3 := Blank];
    EndStep(green, answer, r5);
    assert YellowPass(green, answer, r4, 4) == [true];
    assert YellowPass(green, answer, r3, 3) == [true, true];
    assert YellowPass(green, answer, r2, 2) == [true, true, true];
    assert YellowPass(green, answer, r1, 1) == [true, true, true, true];
    assert YellowPass(green, answer, r0, 0) == [true, true, true, true, true];
  }

  /** Answer 'ーゴーリキ' against 'ゴーリキー': both long-vowel marks find a copy. */
  lemma GorikyRotation()
    ensures Judge("ゴーリキー", "ーゴーリキ") == Labelled([Yellow, Yellow, Yellow, Yellow, Yellow])
  {
    GorikyRotationPass2();
    var target, answer := "ゴーリキー", "ーゴーリキ";
    assert [false, false, false, false, false] == GreenMask(target, answer);
    assert InitialRemaining(target, answer) == [Letter('ゴ'), Letter('ー'), Letter('リ'), Letter('キ'), Letter('ー')];
    JudgeFromPasses(target, answer, [false, false, false, false, false], [true, true, true, true, true], [Yellow, Yellow, Yellow, Yellow, Yellow]);
  }

  /** Pass 2 for answer 'ーゴーリリ' against 'ゴーリキー'. */
  lemma GorikySurplusRiPass2()
    ensures YellowPass([false, false, false, false, false], "ーゴーリリ", [Letter('ゴ'), Letter('ー'), Letter('リ'), Letter('キ'), Letter('ー')], 0) == [true, true, true, true, false]
  {
    var green := [false, false, false, false, false];
    var answer := "ーゴーリリ";
    var r0: seq<Slot> := [Letter('ゴ'), Letter('ー'), Letter('リ'), Letter('キ'), Letter('ー')];
    YellowStep(green, answer, r0, 0, 1);
    var r1 := r0[1 := Blank];
    YellowStep(green, answer, r1, 1, 0);
    var r2 := r1[0 := Blank];
    YellowStep(green, answer, r2, 2, 4);
    var r3 := r2[4 := Blank];
    YellowStep(green, answer, r3, 3, 2);
    var r4 := r3[2 := Blank];
    PlainStep(green, answer, r4, 4);
    EndStep(green, answer, r4);
    assert YellowPass(green, answer, r4, 4) == [false];
    assert YellowPass(green, answer, r3, 3) == [true, false];
    assert YellowPass(green, answer, r2, 2) == [true, true, false];
    assert YellowPass(green, answer, r1, 1) == [true, true, true, false];
    assert YellowPass(green, answer, r0, 0) == [true, true, true, true, false];
  }

  /** Answer 'ーゴーリリ' against 'ゴーリキー': a second リ finds no copy left. */
  lemma GorikySurplusRi()
    ensures Judge("ゴーリキー", "ーゴーリリ") == Labelled([Yellow, Yellow, Yellow, Yellow, White])
  {
    GorikySurplusRiPass2();
    var target, answer := "ゴーリキー", "ーゴーリリ";
    assert [false, false, false, false, false] == GreenMask(target, answer);
    assert InitialRemaining(target, answer) == [Letter('ゴ'), Letter('ー'), Letter('リ'), Letter('キ'), Letter('ー')];
    JudgeFromPasses(target, answer, [false, false, false, false, false], [true, true, true, true, false], [Yellow, Yellow, Yellow, Yellow, White]);
  }

  /** Pass 2 for answer 'ゴゴゴゴゴ' against 'ゴーリキー'. */
  lemma GorikyAllGoPass2()
    ensures YellowPass([true, false, false, false, false], "ゴゴゴゴゴ", [Blank, Letter('ー'), Letter('リ'), Letter('キ'), Letter('ー')], 0) == [false, false, false, false, false]
  {
    var green := [true, false, false, false, false];
    var answer := "ゴゴゴゴゴ";
    var r0: seq<Slot> := [Blank, Letter('ー'), Letter('リ'), Letter('キ'), Letter('ー')];
    PlainStep(green, answer, r0, 0);
    PlainStep(green, answer, r0, 1);
    PlainStep(green, answer, r0, 2);
    PlainStep(green, answer, r0, 3);
    PlainStep(green, answer, r0, 4);
    EndStep(green, answer, r0);
    assert YellowPass(green, answer, r0, 4) == [false];
    assert YellowPass(green, answer, r0, 3) == [false, false];
    assert YellowPass(green, answer, r0, 2) == [false, false, false];
    assert YellowPass(green, answer, r0, 1) == [false, false, false, false];
    assert YellowPass(green, answer, r0, 0) == [false, false, false, false, false];
  }

  /** Answer 'ゴゴゴゴゴ' against 'ゴーリキー': one ゴ in the target, already green. */
  lemma GorikyAllGo()
    ensures Judge("ゴーリキー", "ゴゴゴゴゴ") == Labelled([Green, White, White, White, White])
  {
    GorikyAllGoPass2();
    var target, answer := "ゴーリキー", "ゴゴゴゴゴ";
    assert [true, false, false, false, false] == GreenMask(target, answer);
    assert InitialRemaining(target, answer) == [Blank, Letter('ー'), Letter('リ'), Letter('キ'), Letter('ー')];
    JudgeFromPasses(target, answer, [true, false, false, false, false], [false, false, false, false, false], [Green, White, White, White, White]);
  }

  /** Pass 2 for answer 'ゴーゴーリ' against 'ゴーリキー'. */
  lemma GorikyRepeatedGoPass2()
    ensures YellowPass([true, true, false, false, false], "ゴーゴーリ", [Blank, Blank, Letter('リ'), Letter('キ'), Letter('ー')], 0) == [false, false, false, true, true]
  {
    var green := [true, true, false, false, false];
    var answer := "ゴーゴーリ";
    var r0: seq<Slot> := [Blank, Blank, Letter('リ'), Letter('キ'), Letter('ー')];
    PlainStep(green, answer, r0, 0);
    PlainStep(green, answer, r0, 1);
    PlainStep(green, answer, r0, 2);
    YellowStep(green, answer, r0, 3, 4);
    var r4 := r0[4 := Blank];
    YellowStep(green, answer, r4, 4, 2);
    var r5 := r4[2 := Blank];
    EndStep(green, answer, r5);
    assert YellowPass(green, answer, r4, 4) == [true];
    assert YellowPass(green, answer, r0, 3) == [true, true];
    assert YellowPass(green, answer, r0, 2) == [false, true, true];
    assert YellowPass(green, answer, r0, 1) == [false, false, true, true];
    assert YellowPass(green, answer, r0, 0) == [false, false, false, true, true];
  }

  /** Answer 'ゴーゴーリ' against 'ゴーリキー': the second ゴ is white, the second ー yellow. */
  lemma GorikyRepeatedGo()
    ensures Judge("ゴーリキー", "ゴーゴーリ") == Labelled([Green, Green, White, Yellow, Yellow])
  {
    GorikyRepeatedGoPass2();
    var target, answer := "ゴーリキー", "ゴーゴーリ";
    assert [true, true, false, false, false] == GreenMask(target, answer);
    assert InitialRemaining(target, answer) == [Blank, Blank, Letter('リ'), Letter('キ'), Letter('ー')];
    JudgeFromPasses(target, answer, [true, true, false, false, false], [false, false, false, true, true], [Green, Green, White, Yellow, Yellow]);
  }

  /** Strings of different lengths are rejected. */
  lemma MismatchRejected()
    ensures Judge("フシギダネ", "フシギダ") == LengthMismatch
  {
  }
}
