# Pokémon Wordle — a Dafny model of the feedback labeller and the game loop

pokemon_wordle.py is a console Wordle game over five-character Pokémon
names written in katakana. It has two parts, and this project models
both of them:

- `judge(target, answer)` labels each character of the player's answer.
  Green means the character is at the right position. Yellow means the
  character occurs elsewhere in the target and still has a copy to claim.
  White means neither. Duplicate letters follow multiset semantics. Pass 1
  blanks the exact matches in a copy of the target called `remaining`.
  Pass 2 walks the answer left to right. Each non-green character that
  is still in `remaining` turns yellow and blanks its first occurrence
  there.
- The input loop of `main` handles one line at a time. `quit` reveals
  the answer and ends the game. `help` shows the rules. A line that is
  not five characters long is rejected. Any other line is judged and
  counted. The loop stops once the last line read equals the target, and
  the game then reports the count.

Files:

- `counting.dfy` (module `Counting`): character counts over strings and
  over pairs of equal-length strings. These are the matched and the
  misplaced occurrences.
- `feedback.dfy` (module `Feedback`): the `Label` datatype
  (`Green | Yellow | White`) and `Judge`. `Judge` is built from the
  green mask, the `remaining` slots (`Blank` plays the role of the empty
  string the source writes into a credited slot), `FirstIndex`
  (`list.index`) and the recursive second pass `YellowPass`. A length
  mismatch is the `LengthMismatch` result, which stands for the
  source's `ValueError`.
- `feedback_spec.dfy` (module `FeedbackSpec`): `Reference` is a
  closed-form definition of the labels in counting terms, with no
  `remaining` list. A non-green character c is yellow exactly when, earlier
  in the answer, fewer misplaced copies of c appear than the target has
  unmatched copies of c. The module proves that `Judge` computes
  `Reference`. From that it derives:
  - the multiset semantics;
  - the left-to-right credit rule;
  - all-green exactly for the identical answer;
  - all-yellow exactly for a rearrangement with no fixed point.
- `vectors.dfy` (module `TestVectors`): the eleven label expectations of
  tests/test_game.py, each proved about `Judge`.
- `game.dfy` (module `Game`): `Step` is one pass through the loop body.
  `Run` and `Play` are the loop as a fold over a finite sequence of input
  lines, returning an `Outcome` (`Won(guesses)`, `Quit`,
  `InputExhausted(guesses)`, `JudgeFailed`) and the printed responses.
  `Expected` is a closed-form description of the outcome.

The loop is modelled for every target, not only five-character ones.
The source tests the raw line in the loop condition, whatever branch
that line took. Two edge cases follow from that:

- An empty target wins before any line is read.
- A target of another length makes every five-character guess raise in
  `judge`, which the model records as `JudgeFailed`. Such a target can
  still be typed. Most such targets end the game through the wrong-length
  branch, with the count unchanged. The target "help" wins through the
  rules branch, again with no guess counted. The target "quit" can never
  be won, because typing it ends the game through `exit()`.

The closed-form theorems about the loop assume a five-character target,
which is what the game draws in practice.

How the code behaves in places where a reader might expect otherwise:

- The count starts at 0 and grows on every judged guess, the winning one
  included, so a win reports the number of guesses.
- For every character, credit (green or yellow) equals the smaller of its
  counts in target and answer.
- There is no hint command, no scripted opponent and no check that a
  guess is katakana.

tests/test_game.py imports `Color` and `ColorLabels`, which
pokemon_wordle.py does not define. The labels it expects agree with
`judge`, and `TestVectors` states them against `Judge`.

## Model

| member | source | states |
|---|---|---|
| Feedback.Judge | pokemon_wordle.py:58-92 | Judging fails exactly when the two strings differ in length. Otherwise there is one label per answer position, and a position is green exactly when target and answer agree there. |
| Feedback.FirstIndex | pokemon_wordle.py:90 | `remaining.index(c)` is a position holding c with no earlier position holding c. |
| Feedback.GreenMask | pokemon_wordle.py:74-80 | Pass 1 yields one flag per answer position, set exactly where target and answer agree. |
| Feedback.InitialRemaining | pokemon_wordle.py:69-80 | The copy of the target after pass 1 has the target's length. A slot is blank exactly at a green position, and every other slot holds the target's character there. What it holds in counting terms is stated by `FeedbackSpec.InitialRemainingOccurrences`. |
| Feedback.Claim | pokemon_wordle.py:90 | Crediting a character keeps the length of `remaining`. Which slot changes is stated by `Feedback.ClaimBlanksFirstCopy`, and what happens to the counts by `FeedbackSpec.SpendOccurrences`. |
| Feedback.ClaimBlanksFirstCopy | pokemon_wordle.py:90 | Crediting c changes exactly one slot of `remaining`: the first one holding c, which becomes blank. |
| Feedback.YellowPass | pokemon_wordle.py:83-92 | The second pass yields one flag per remaining answer position and never marks a green position yellow. |
| FeedbackSpec.InitialRemainingOccurrences | pokemon_wordle.py:69-80 | After pass 1, `remaining` holds each character exactly as often as the target has unmatched copies of it. |
| FeedbackSpec.SpendOccurrences | pokemon_wordle.py:90 | Blanking a slot of `remaining` removes exactly one copy of the character it held and leaves the other characters' counts unchanged. |
| FeedbackSpec.YellowPassAgrees | pokemon_wordle.py:83-92 | Suppose `remaining` holds, for every character, the unmatched copies not yet spent on earlier yellows. Then each later position is yellow exactly when the counting rule grants it. |
| FeedbackSpec.JudgeMatchesReference | pokemon_wordle.py:58-92 | The two-pass `remaining` algorithm yields the closed-form counting labels on every pair of equal-length strings. |
| FeedbackSpec.ReferencePrefixCounts | pokemon_wordle.py:83-92 | Over every prefix, the yellows for c number min(earlier misplaced copies of c in the answer, unmatched copies of c in the target). The credited positions for c are the exact matches plus those yellows. |
| FeedbackSpec.YellowCreditLeftToRight | pokemon_wordle.py:84-92 | A non-green position with character c is yellow exactly when fewer earlier positions with c are yellow than the target has unmatched copies of c. |
| FeedbackSpec.CreditIsMinOfCounts | pokemon_wordle.py:69-92 | For every character c, the answer positions with c labelled green or yellow number exactly min(count of c in target, count of c in answer). So they never exceed the target's copies, and surplus duplicates are white. |
| FeedbackSpec.AllGreenIffIdentical | pokemon_wordle.py:74-80 | All labels are green if and only if the answer equals the target. |
| FeedbackSpec.DerangementAllYellow | pokemon_wordle.py:83-92 | An answer that rearranges the target's characters and fixes no position is labelled all yellow. |
| FeedbackSpec.AllYellowIsDerangement | pokemon_wordle.py:74-92 | An all-yellow answer rearranges the target's characters and fixes no position. |
| TestVectors.FushigidaneExact | tests/test_game.py:8 | 'フシギダネ' against 'フシギダネ' is all green. |
| TestVectors.FushigidaneDots | tests/test_game.py:9 | 'フ・ギ・ネ' against 'フシギダネ' is green, white, green, white, green. |
| TestVectors.FushigidaneRotation | tests/test_game.py:10 | 'ネフシギダ' against 'フシギダネ' is all yellow. |
| TestVectors.FushigidaneSurplusGi | tests/test_game.py:11 | 'ネフシギギ' against 'フシギダネ' is four yellows and a white: the second ギ has no copy left. |
| TestVectors.FushigidaneTripleFu | tests/test_game.py:12 | 'フフフネギ' against 'フシギダネ' is green, white, white, yellow, yellow. |
| TestVectors.GorikyExact | tests/test_game.py:20 | 'ゴーリキー' against 'ゴーリキー' is all green. |
| TestVectors.GorikyDots | tests/test_game.py:21 | 'ゴ・リ・ー' against 'ゴーリキー' is green, white, green, white, green. |
| TestVectors.GorikyRotation | tests/test_game.py:22 | 'ーゴーリキ' against 'ゴーリキー' is all yellow. Both long-vowel marks find a copy. |
| TestVectors.GorikySurplusRi | tests/test_game.py:23 | 'ーゴーリリ' against 'ゴーリキー' is four yellows and a white. |
| TestVectors.GorikyAllGo | tests/test_game.py:24 | 'ゴゴゴゴゴ' against 'ゴーリキー' is one green and four whites. |
| TestVectors.GorikyRepeatedGo | tests/test_game.py:25 | 'ゴーゴーリ' against 'ゴーリキー' is green, green, white, yellow, yellow. |
| TestVectors.MismatchRejected | pokemon_wordle.py:66-67 | A four-character answer against a five-character target is the length-mismatch error. |
| Game.Step | pokemon_wordle.py:35-44 | `quit` quits, and only `quit` does. `help` shows the rules and a wrong-length line is rejected; both leave the count unchanged and call no judge. Any other five-character line is judged and adds exactly one to the count, or crashes when the target is not five characters long. |
| Game.Run | pokemon_wordle.py:33-44 | Whenever the loop reports a count, it is the starting count plus the number of judged guesses printed on the way. There are never more responses than input lines. |
| Game.Play | pokemon_wordle.py:31-32 | The game starts with no line read and a count of 0. So a reported count is exactly the number of judged guesses printed. The closed form of the outcome is `Game.PlayMatchesExpected`. |
| Game.RunMatchesExpected | pokemon_wordle.py:31-45 | For a five-character target, from any point where the last line read is not the target, the loop's outcome is the closed form shifted by the guesses counted so far. |
| Game.PlayMatchesExpected | pokemon_wordle.py:31-45 | For a five-character target, the game ends at the first line that is `quit` (Quit) or the target. A win reports the guesses up to and including the winning one. Without such a line, the input runs out after all guesses are counted. |
| Game.RunWinEndsAllGreen | pokemon_wordle.py:42-45 | For a five-character target, from any point where the last line read is not the target, a win is preceded by the winning guess's feedback, all green. |
| Game.PlayWinEndsAllGreen | pokemon_wordle.py:42-45 | For a five-character target, the last response before a win is the winning guess judged all green. |
| Game.QuitTargetCannotWin | pokemon_wordle.py:33-37 | With the target "quit", the loop never reports a win: the line that equals the target always takes the quit branch first. |
| Game.OffLengthTargetNeverCounts | pokemon_wordle.py:33-44 | With a target that is not five characters long, no guess is ever judged, and a win always reports zero guesses. |

## Left out

- Reading the Pokémon list from a CSV file (pokemon_wordle.py:15-17) and the command-line parsing (pokemon_wordle.py:106-110): file and argument I/O.
- The random choice of the target (pokemon_wordle.py:19-24): the target is a parameter of `Play`. The two type fields of the chosen record are never used by the loop.
- The debug print of the target (pokemon_wordle.py:25), the command banner (pokemon_wordle.py:28-29), the rules text of `guide` (pokemon_wordle.py:48-55) and the colour initialisation and coloured output (pokemon_wordle.py:30, 95-103): presentation only. The model keeps which response is printed and the label sequence, not the glyphs.
- `exit()` (pokemon_wordle.py:37): ending the process is the `Quit` outcome.
- End of input: in the source, `input()` raises on end of file. The model's input is a finite sequence, and running out of it is the `InputExhausted` outcome.
- Characters are Dafny `char`s, which are Unicode scalar values, so a string's length is its number of code points, as with Python's `len`. Python strings holding lone surrogates are not modelled.
- poke_wordle.py: its `main` has an empty body, so there is nothing to model.
