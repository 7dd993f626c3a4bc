# Qate's Quick Quiz: a Dafny model of the quiz session

This project models the `KateQuiz` class of the trivia quiz widget
(`assets/js/script.js`). The widget fetches a batch of ten multiple-choice
questions, shows them one at a time, records the player's selection, scores it,
and ends on a results screen with a percentage and one of four closing messages.
The model covers four parts:

- **Answer shuffle** (`Shuffle.dfy`). `shuffleArray` is a Fisher-Yates shuffle on a
  copy of its input. It is specified by the pure function `Shuffled` and
  implemented by `ShuffleArray`, a descending `while` loop over an array.
  `Math.random` is an explicit random source `rand`. At loop counter `i` the swap
  index is `rand(i) % (i + 1)`, so exactly the indices in `[0, i]` can be chosen.
- **Question loading** (`Questions.dfy`). The reply to the request is an abstract
  `Reply`. `decodeHtml` is a function parameter `decode`. `LoadQuestions` is the
  accept/reject rule of `fetchQuestions`: every failure is rewritten to the one
  message 'Unable to load questions. Go kick the router.' `Normalise` builds a
  question's choices as a shuffle of the decoded correct answer followed by the
  decoded incorrect ones.
- **Scoring** (`Scoring.dfy`). `showResults` turns the score into a rounded
  percentage and picks a tier from the ladder >= 90, >= 70, >= 50, else. `Message`
  gives each tier's closing text, and the `Summary` that `Summarise` returns carries it.
- **Session** (`Quiz.dfy`). The class `KateQuiz` holds the source's fields
  `questions`, `currentQuestion`, `score`, `selectedAnswer` and `isAnswered`. It also
  holds what the handlers set on the page:
  - the one visible screen;
  - the error text;
  - whether the Next button is enabled, and its label;
  - the results summary;
  - the number of pending `setTimeout` callbacks.

  Each handler is a method. The timeout callback of `nextQuestion` is the separate
  step `Advance`.

Behaviour the code has and the model keeps:

- `nextQuestion` tests only `!this.selectedAnswer`, never `isAnswered`. Each further
  press of Next scores again and schedules another advance (`PressNextTwice`).
- An empty-string selection counts as no selection (`HasSelection`).
- A selection is always one of the current question's choices, because only the rendered options call `selectAnswer`. The session invariant `Valid` records this, so `nextQuestion` always finds a current question.
- A failed load leaves `questions`, `currentQuestion` and `score` as they were.
- `restart` only shows the start screen. The score and the index are reset by the
  next successful `startQuiz`.
- A load that succeeds with an empty `results` list is not rejected by
  `fetchQuestions`. `showQuestion` first clears the selection, then throws a
  TypeError on the missing question. The error screen therefore shows the
  engine's message (`MissingQuestionTypeError`), not the fixed load-error message.
- A question has `1 + |incorrect_answers|` choices. This is four only when the API
  sends three incorrect answers.
- The closing messages end in emoji that the source file stores mis-encoded. They
  are reproduced character for character.

## Model

| member | source | states |
|---|---|---|
| `Shuffle.SwapIndex` | assets/js/script.js:93 | the swap index at loop counter `i` never exceeds `i` |
| `Shuffle.SmallDrawIsIndex` | assets/js/script.js:93 | every index in `[0, i]` is the swap index for some draw |
| `Shuffle.SwapPermutes` | assets/js/script.js:94 | one swap rearranges the elements and keeps their multiset |
| `Shuffle.Shuffled` | assets/js/script.js:90-97 | the shuffle of a sequence has the sequence's length |
| `Shuffle.ShuffledIsPermutation` | assets/js/script.js:90-96 | the shuffle returns a permutation of its input: same length, same multiset |
| `Shuffle.ShortInputUnchanged` | assets/js/script.js:91-92 | inputs of length 0 or 1 come back unchanged |
| `Shuffle.ShuffleFromKeepsAbove` | assets/js/script.js:92-95 | positions above the loop counter are final: later steps never move them |
| `Shuffle.SelfSwapsSkip` | assets/js/script.js:93-94 | steps whose draw is the counter itself leave the array as it is |
| `Shuffle.PlacedAtCounter` | assets/js/script.js:92-95 | draws that swap `s[q]` into position `p` at counter `p` leave it there |
| `Shuffle.PlacedBelowCounter` | assets/js/script.js:92-95 | draws that swap `s[q]` down to `p` at counter `q` leave it at `p` |
| `Shuffle.EveryPlacementReachable` | assets/js/script.js:92-95 | for every element and every position, some draws put that element there |
| `Shuffle.DrawsBelowCounterDecide` | assets/js/script.js:92-93 | the loop started at counter `i` consumes only the draws for counters `1..i`: draws agreeing there give the same result |
| `Shuffle.MatchesFromZero` | assets/js/script.js:92 | once the counter reaches 0 the loop stops, so a sequence holding the target's elements at 0 and agreeing above is the result |
| `Shuffle.SwapIntoPlace` | assets/js/script.js:94 | swapping the wanted element into position `i` makes the sequence agree with the target from `i` up, with the rest still a rearrangement of the target's prefix |
| `Shuffle.PrependDraw` | assets/js/script.js:92-94 | a draw choosing `j` at counter `i` turns the loop from `i` into the swap of `i` and `j` followed by the loop from `i - 1` |
| `Shuffle.ReachFrom` | assets/js/script.js:92-95 | the loop from counter `i` can produce any target that agrees above `i` and holds the same elements at `0..i` |
| `Shuffle.EveryOrderingReachable` | assets/js/script.js:90-96 | every permutation of the input is the shuffle's result for some draws |
| `Shuffle.SwapInPlace` | assets/js/script.js:94 | the destructuring swap exchanges two array cells and nothing else |
| `Shuffle.ShuffleArray` | assets/js/script.js:90-97 | returns a fresh array equal to the specified shuffle of the input, a permutation of it; the input array is not modified |
| `Questions.DecodeAll` | assets/js/script.js:73 | every incorrect answer is decoded, in order |
| `Questions.Normalise` | assets/js/script.js:70-78 | the texts are decoded; the choices are a permutation of the decoded correct answer plus the decoded incorrect ones, so there are `1 + |incorrect|` of them and the correct answer is among them |
| `Questions.NormaliseAll` | assets/js/script.js:70-78 | one question per result, in order, each normalised with its own draws |
| `Questions.TryLoad` | assets/js/script.js:58-78 | a question list exactly for an `ok` response whose body parses with `response_code` 0, and it is the normalised `results`; the status error exactly for a response that is not `ok`; the code error carries the non-zero `response_code` |
| `Questions.LoadQuestions` | assets/js/script.js:58-81 | succeeds exactly when the response is `ok`, the body parses and `response_code` is 0; every failure carries the single load-error message |
| `Questions.LoadedQuestionsWellFormed` | assets/js/script.js:70-78 | every question of an accepted batch offers its correct answer and exactly its own answers |
| `Questions.CorrectAnswerOfferedOnce` | assets/js/script.js:74-77 | when the correct answer differs from every incorrect one, it is offered exactly once |
| `Questions.CorrectAnswerCanTakeAnyPosition` | assets/js/script.js:74-77 | for every choice position, some draws place the correct answer there |
| `Scoring.Percentage` | assets/js/script.js:164 | the percentage is the integer nearest to `100 * score / total`, halves rounded up |
| `Scoring.PercentageAtMostHundred` | assets/js/script.js:164 | with `score <= total` the percentage is at most 100 |
| `Scoring.PercentageMonotone` | assets/js/script.js:164 | a higher score never gives a lower percentage |
| `Scoring.PercentageExtremes` | assets/js/script.js:164 | all answers correct gives 100; none gives 0 |
| `Scoring.TierOf` | assets/js/script.js:168-177 | the tier chosen is the highest one whose threshold (90, 70, 50) the percentage reaches; the bottom tier catches the rest |
| `Scoring.TierMonotone` | assets/js/script.js:169-177 | a higher percentage never earns a lower tier |
| `Scoring.TierMonotoneInScore` | assets/js/script.js:164-177 | a higher score never earns a lower tier |
| `Scoring.Summarise` | assets/js/script.js:164-179 | the results show the score, the question count, the percentage, the tier of that percentage and that tier's message |
| `Scoring.AllTenCorrect` | assets/js/script.js:164-179 | 10 of 10 gives 100 percent, the top tier and its trivia-master message |
| `Scoring.SixOfTenCorrect` | assets/js/script.js:164-179 | 6 of 10 gives 60 percent, the third tier and its 'Not bad!' message |
| `Quiz.LabelFor` | assets/js/script.js:120 | the Next button reads 'View Results' exactly on the last question |
| `Quiz.KateQuiz.HasSelection` | assets/js/script.js:134 | no selection and the empty-string selection both count as no selection; a selection is a non-empty answer |
| `Quiz.KateQuiz.constructor` | assets/js/script.js:2-7 | no questions, index 0, score 0, no selection, not answered |
| `Quiz.KateQuiz.ShowScreen` | assets/js/script.js:183-204 | exactly the named screen is visible |
| `Quiz.KateQuiz.ShowError` | assets/js/script.js:206-209 | the error screen shows the given text |
| `Quiz.KateQuiz.FetchQuestions` | assets/js/script.js:55-82 | `questions` is assigned the normalised batch exactly when the reply is accepted; otherwise it is untouched and the one load-error message is raised |
| `Quiz.KateQuiz.ShowQuestion` | assets/js/script.js:99-121 | clears the selection and the lock; when a question exists it disables Next and labels it for the position; otherwise it fails after the reset |
| `Quiz.KateQuiz.StartQuiz` | assets/js/script.js:41-53 | on an accepted reply: the loaded batch, index 0, score 0, no selection, not answered, then the quiz screen with the first question's label, or for an empty batch the error screen with the engine's TypeError; on a rejected reply nothing but the error screen and the load-error message changes; the session invariant is kept |
| `Quiz.KateQuiz.OpenFirstQuestion` | assets/js/script.js:46-49 | index and score reset, selection cleared, then the quiz screen with the first question's label, or the error screen when the batch is empty |
| `Quiz.KateQuiz.SelectAnswer` | assets/js/script.js:123-131 | takes one of the current question's choices (the only answers the rendered options pass); ignored once answered; otherwise that answer becomes the selection and Next is enabled; the session invariant is kept |
| `Quiz.KateQuiz.NextQuestion` | assets/js/script.js:133-161 | no selection (none or empty): nothing changes; otherwise answered, score up by one exactly on a correct selection, one advance scheduled, index unchanged |
| `Quiz.KateQuiz.ShowResults` | assets/js/script.js:163-181 | the summary of the current score and the results screen |
| `Quiz.KateQuiz.Advance` | assets/js/script.js:153-160 | moves to the next question and resets the selection while one remains, otherwise shows the results; the results are shown exactly when the button read 'View Results'; the index stays in range |
| `Quiz.KateQuiz.Restart` | assets/js/script.js:211-213 | only the start screen is shown |
| `Quiz.PressNextTwice` | assets/js/script.js:133-142 | two presses on a correct selection score twice and schedule two advances |
| `Quiz.OneQuestionSession` | assets/js/script.js:41-181 | a correctly answered one-question batch ends at 1/1, 100 percent, top tier and its message; after restart, the next start resets score, index and selection and shows the quiz screen, while the old summary stays |

## Left out

- Rendering is not modelled: the option elements, their highlighting and pointer events, the question number, the question text and the progress bar. Only the state the handlers keep is modelled.
- The network request and `response.json()` are foreign I/O. Their outcome is the `Reply` parameter. JSON of another shape than `{ response_code, results }` is not modelled; the source's `catch` would rewrite it to the same load-error message.
- `decodeHtml` uses the browser's entity decoding. It is the uninterpreted parameter `decode`.
- `Math.random` is the parameter `rand`. Uniformity of the shuffle is a statistical property and is not modelled. `EveryOrderingReachable` states its non-probabilistic part: every ordering is produced by some draws.
- `Scoring.Percentage`: the floating-point value of `Math.round(score / total * 100)` is replaced by exact integer rounding of `100 * score / total`.
- The text forms of the results (`score/total` and `message (percentage%)`) are not modelled. The summary holds their values.
- `Quiz.KateQuiz.StartQuiz`: the awaited fetch runs to completion inside the method. The loading screen is therefore shown only transiently. A timeout callback that fires while a fetch is in flight is not modelled.
- `Quiz.KateQuiz.Advance`: requires at least one question. A callback could meet an empty batch only if it raced a reload whose batch was empty; the source would then compute a `NaN` percentage.
- The initial page markup is outside the script. The constructor takes it to show the start screen with the Next button disabled and labelled 'Next Question'.
