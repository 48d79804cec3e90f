/**
 The input-dispatch loop of `main` in pokemon_wordle.py, as a fold over a
 finite sequence of input lines. The hidden target is a parameter (the
 source draws it at random from a CSV list). Each line is one of:
 "quit", which reveals the answer and ends the game; "help", which shows
 the rules; a line of the wrong length, which is rejected; or a guess,
 which is judged and counted. The loop tests the last raw line against the
 target before reading the next one, whichever branch that line took.

 The loop is modelled for every target, including the ones the game never
 draws in practice: an empty target wins before any input, and a target
 whose length is not 5 makes every 5-character guess crash `judge`.
 */
module Game {
  import opened Feedback

  /** The length every guess must have. */
  const GuessLength: nat := 5

  /** What the loop prints in reply to one input line. */
  datatype Response =
    | RevealAnswer(answer: string)    // "quit": the answer is announced
    | ShowRules                       // "help": the rules (`guide`)
    | RejectLength                    // a line of the wrong length
    | ShowLabels(labels: seq<Label>)  // a judged guess

  /** How the game ends. */
  datatype Outcome =
    | Won(guesses: nat)               // the last line equalled the target; the printed count
    | Quit                            // "quit" ended the process
    | InputExhausted(guesses: nat)    // no lines left before either
    | JudgeFailed                     // `judge` raised its length-mismatch error

  /** The outcome and every response printed on the way. */
  datatype Session = Session(outcome: Outcome, responses: seq<Response>)

  /** The effect of one line: go on with a response and the new count,
      quit, or crash in `judge`. */
  datatype Turn = Next(response: Response, count: nat) | Quitting | Crash

  /** One pass through the body of the loop with `count` guesses so far.
      The commands are matched first, then the length check; only a line
      passing both is judged, and only a judged line is counted. */
  function Step(target: string, count: nat, input: string): (t: Turn)
    ensures t.Quitting? <==> input == "quit"
    ensures t.Crash? <==> input != "quit" && input != "help" && |input| == GuessLength && |target| != GuessLength
    ensures t.Next? ==> t.count == count + (if t.response.ShowLabels? then 1 else 0)
    ensures t.Next? && input == "help" ==> t.response == ShowRules
    ensures t.Next? && input != "help" && |input| != GuessLength ==> t.response == RejectLength
    ensures t.Next? && input != "help" && |input| == GuessLength ==> t.response.ShowLabels?
    ensures t.Next? && t.response.ShowLabels? ==>
      input != "help" && |input| == GuessLength && Judge(target, input) == Labelled(t.response.labels)
  {
    if input == "quit" then Quitting
    else if input == "help" then Next(ShowRules, count)
    else if |input| != GuessLength then Next(RejectLength, count)
    else match Judge(target, input)
      case LengthMismatch => Crash
      case Labelled(labels) => Next(ShowLabels(labels), count + 1)
  }

  /** Number of judged guesses among the responses. */
  function Judged(responses: seq<Response>): nat
  {
    if |responses| == 0 then 0
    else (if responses[0].ShowLabels? then 1 else 0) + Judged(responses[1..])
  }

  /** The loop from the point where `last` was the last line read and
      `count` guesses were judged. Whenever a count is reported, it is the
      starting count plus the number of judged guesses printed since. */
  function Run(target: string, inputs: seq<string>, last: string, count: nat): (s: Session)
    ensures s.outcome.Won? ==> s.outcome.guesses == count + Judged(s.responses)
    ensures s.outcome.InputExhausted? ==> s.outcome.guesses == count + Judged(s.responses)
    ensures |s.responses| <= |inputs|
    decreases |inputs|
  {
    if last == target then Session(Won(count), [])
    else if |inputs| == 0 then Session(InputExhausted(count), [])
    else match Step(target, count, inputs[0])
      case Quitting => Session(Quit, [RevealAnswer(target)])
      case Crash => Session(JudgeFailed, [])
      case Next(response, count') =>
        var rest := Run(target, inputs[1..], inputs[0], count');
        Session(rest.outcome, [response] + rest.responses)
  }

  /** `main` after the target is chosen: no line read yet, no guess
      counted, so a reported count is exactly the number of judged guesses. */
  function Play(target: string, inputs: seq<string>): (s: Session)
    ensures s.outcome.Won? ==> s.outcome.guesses == Judged(s.responses)
    ensures s.outcome.InputExhausted? ==> s.outcome.guesses == Judged(s.responses)
  {
    Run(target, inputs, "", 0)
  }

  /** A line the loop judges and counts. */
  predicate IsGuess(input: string)
  {
    input != "quit" && input != "help" && |input| == GuessLength
  }

  /** Number of lines the loop judges and counts. */
  function Guesses(inputs: seq<string>): nat
  {
    if |inputs| == 0 then 0
    else (if IsGuess(inputs[0]) then 1 else 0) + Guesses(inputs[1..])
  }

  /** A line after which the loop stops. */
  predicate Ends(target: string, input: string)
  {
    input == target || input == "quit"
  }

  /** Position of the first line that ends the game, or |inputs| if none. */
  function FirstEnd(target: string, inputs: seq<string>): (k: nat)
    ensures k <= |inputs|
    ensures k < |inputs| ==> Ends(target, inputs[k])
    ensures forall j :: 0 <= j < k ==> !Ends(target, inputs[j])
  {
    if |inputs| == 0 then 0
    else if Ends(target, inputs[0]) then 0
    else 1 + FirstEnd(target, inputs[1..])
  }

  /** The outcome in closed form, for a target of the guess length: the game
      stops at the first line that is "quit" or the target; a win reports
      every guess up to and including the winning one. */
  function Expected(target: string, inputs: seq<string>): Outcome
  {
    var k := FirstEnd(target, inputs);
    if k == |inputs| then InputExhausted(Guesses(inputs))
    else if inputs[k] == "quit" then Quit
    else Won(Guesses(inputs[..k + 1]))
  }

  function Shift(o: Outcome, count: nat): Outcome
  {
    match o
    case Won(g) => Won(count + g)
    case InputExhausted(g) => InputExhausted(count + g)
    case _ => o
  }

  /** A line that does not end the game moves the closed form on by one
      line, counting the line if it is a guess. */
  lemma ExpectedStep(target: string, inputs: seq<string>, count: nat)
    requires |inputs| > 0 && !Ends(target, inputs[0])
    ensures Shift(Expected(target, inputs), count)
         == Shift(Expected(target, inputs[1..]), count + (if IsGuess(inputs[0]) then 1 else 0))
  {
    var rest := inputs[1..];
    var k := FirstEnd(target, rest);
    assert FirstEnd(target, inputs) == k + 1;
    if k < |rest| {
      assert inputs[..k + 2][1..] == rest[..k + 1];
    }
  }

  lemma {:induction false} RunMatchesExpected(target: string, inputs: seq<string>, last: string, count: nat)
    requires |target| == GuessLength && last != target
    ensures Run(target, inputs, last, count).outcome == Shift(Expected(target, inputs), count)
    decreases |inputs|
  {
    if |inputs| > 0 {
      var input := inputs[0];
      if input == "quit" {
        assert FirstEnd(target, inputs) == 0;
      } else if input == target {
        assert FirstEnd(target, inputs) == 0;
        assert Guesses(inputs[..1]) == 1 by {
          assert inputs[..1][1..] == [];
        }
        assert Step(target, count, input).count == count + 1;
      } else {
        var count' := count + (if IsGuess(input) then 1 else 0);
        assert Step(target, count, input).count == count';
        RunMatchesExpected(target, inputs[1..], input, count');
        ExpectedStep(target, inputs, count);
      }
    }
  }

  /** For a target of the guess length, the game ends exactly at the first
      line that is "quit" or the target; the count reported on a win is the
      number of guesses up to and including the winning one, and the count
      on exhausted input is the number of all guesses. */
  lemma PlayMatchesExpected(target: string, inputs: seq<string>)
    requires |target| == GuessLength
    ensures Play(target, inputs).outcome == Expected(target, inputs)
  {
    RunMatchesExpected(target, inputs, "", 0);
  }

  /** The guess that wins is itself judged, and judged all green. */
  lemma {:induction false} RunWinEndsAllGreen(target: string, inputs: seq<string>, last: string, count: nat)
    requires |target| == GuessLength && last != target
    ensures var s := Run(target, inputs, last, count);
      s.outcome.Won? ==> |s.responses| > 0 && s.responses[|s.responses| - 1] == ShowLabels(seq(GuessLength, _ => Green))
    decreases |inputs|
  {
    if |inputs| > 0 && inputs[0] != "quit" {
      if inputs[0] == target {
        var labels := Judge(target, target).labels;
        assert labels == seq(GuessLength, _ => Green);
      } else {
        var count' := count + (if IsGuess(inputs[0]) then 1 else 0);
        RunWinEndsAllGreen(target, inputs[1..], inputs[0], count');
      }
    }
  }

  lemma PlayWinEndsAllGreen(target: string, inputs: seq<string>)
    requires |target| == GuessLength
    ensures var s := Play(target, inputs);
      s.outcome.Won? ==> |s.responses| > 0 && s.responses[|s.responses| - 1] == ShowLabels(seq(GuessLength, _ => Green))
  {
    RunWinEndsAllGreen(target, inputs, "", 0);
  }

  /** With a target whose length is not 5, no guess is ever counted: a
      5-character line crashes `judge`, so a win can only come at once, when
      the target is empty, or from typing the target itself (rejected for
      its length, or shown the rules when the target is "help"), and it
      always reports zero guesses. */
  lemma {:induction false} OffLengthTargetNeverCounts(target: string, inputs: seq<string>, last: string)
    requires |target| != GuessLength
    ensures Judged(Run(target, inputs, last, 0).responses) == 0
    ensures Run(target, inputs, last, 0).outcome.Won? ==> Run(target, inputs, last, 0).outcome == Won(0)
    decreases |inputs|
  {
    if last != target && |inputs| > 0 {
      OffLengthTargetNeverCounts(target, inputs[1..], inputs[0]);
    }
  }

  /** A target equal to "quit" can never be won: typing it takes the quit
      branch before the loop can compare it with the target. */
  lemma {:induction false} QuitTargetCannotWin(inputs: seq<string>, last: string, count: nat)
    requires last != "quit"
    ensures !Run("quit", inputs, last, count).outcome.Won?
    decreases |inputs|
  {
    if |inputs| > 0 && inputs[0] != "quit" {
      var t := Step("quit", count, inputs[0]);
      if t.Next? {
        QuitTargetCannotWin(inputs[1..], inputs[0], t.count);
      }
    }
  }
}
