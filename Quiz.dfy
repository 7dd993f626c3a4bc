/** The quiz session (`class KateQuiz` in assets/js/script.js). The fields are the
    session state the source mutates; the DOM is reduced to what the handlers
    set on it: which single screen is visible, the error text, whether the Next
    button is enabled and its label, and the results summary. A `setTimeout`
    scheduled by `nextQuestion` is counted in `pendingAdvances`, and its callback
    runs as the separate step `Advance`. */
module Quiz {
  import opened Wrappers
  import opened Questions
  import opened Scoring

  /** The five screens; `showScreen` hides all of them and reveals exactly one. */
  datatype Screen = StartScreen | LoadingScreen | ErrorScreen | QuizScreen | ResultsScreen

  /** The two labels `showQuestion` gives the Next button. */
  datatype NextLabel = NextQuestionLabel | ViewResultsLabel

  /** The text of the error screen: a message passed to `showError`, or the
      engine's own TypeError text when `showQuestion` finds no question to show. */
  datatype ErrorText = Text(text: string) | MissingQuestionTypeError

  /** The label `showQuestion` gives the Next button at question `current` of `count`. */
  function LabelFor(current: nat, count: nat): (l: NextLabel)
    ensures l == ViewResultsLabel <==> current + 1 == count
  {
    if current == count - 1 then ViewResultsLabel else NextQuestionLabel
  }

  class KateQuiz {
    var questions: seq<Question>
    var currentQuestion: nat
    var score: nat
    var selectedAnswer: Option<string>
    var isAnswered: bool

    var screen: Screen
    var errorMessage: ErrorText
    var nextEnabled: bool
    var nextLabel: NextLabel
    var summary: Option<Summary>
    var pendingAdvances: nat

    /** `!this.selectedAnswer` is false: an answer is selected and it is not the empty string. */
    predicate HasSelection()
      reads this
      ensures selectedAnswer == None ==> !HasSelection()
      ensures selectedAnswer == Some("") ==> !HasSelection()
      ensures HasSelection() ==> selectedAnswer.Some? && |selectedAnswer.value| > 0
    {
      selectedAnswer.Some? && selectedAnswer.value != ""
    }

    /** The session invariant: the question index is in range whenever there are
        questions; a selection is one of the current question's choices and comes
        with an enabled Next button; an answer is locked in only once one is
        selected; and the Next button's label matches the current question. */
    ghost predicate Valid()
      reads this
    {
      (questions == [] ==> currentQuestion == 0) &&
      (questions != [] ==> currentQuestion < |questions|) &&
      (selectedAnswer.Some? ==>
         currentQuestion < |questions| && selectedAnswer.value in questions[currentQuestion].allAnswers) &&
      (isAnswered ==> HasSelection()) &&
      (selectedAnswer.Some? ==> nextEnabled) &&
      (questions != [] ==> nextLabel == LabelFor(currentQuestion, |questions|))
    }

    /** The constructor's field values; the page markup is taken to show the
        start screen with the Next button disabled. */
    constructor ()
      ensures Valid()
      ensures questions == [] && currentQuestion == 0 && score == 0
      ensures selectedAnswer == None && !isAnswered
      ensures screen == StartScreen && !nextEnabled && summary == None && pendingAdvances == 0
    {
      questions := [];
      currentQuestion := 0;
      score := 0;
      selectedAnswer := None;
      isAnswered := false;
      screen := StartScreen;
      errorMessage := Text("");
      nextEnabled := false;
      nextLabel := NextQuestionLabel;
      summary := None;
      pendingAdvances := 0;
    }

    /** `showScreen`: exactly the named screen is visible afterwards. */
    method ShowScreen(s: Screen)
      modifies this`screen
      ensures screen == s
    {
      screen := s;
    }

    /** `showError`: the error screen with the given text. */
    method ShowError(message: ErrorText)
      modifies this`errorMessage, this`screen
      ensures errorMessage == message && screen == ErrorScreen
    {
      errorMessage := message;
      ShowScreen(ErrorScreen);
    }

    /** `fetchQuestions`: assigns `questions` exactly when the reply is accepted,
        and otherwise fails with the one load-error message. */
    method FetchQuestions(reply: Reply, decode: string -> string, rand: nat -> nat -> nat)
      returns (outcome: Outcome<string>)
      modifies this`questions
      ensures outcome.Pass? <==> Accepted(reply)
      ensures outcome.Pass? ==> questions == LoadQuestions(reply, decode, rand).value
      ensures outcome.Fail? ==> outcome.error == LoadErrorMessage && questions == old(questions)
    {
      var loaded := LoadQuestions(reply, decode, rand);
      match loaded
      case Success(qs) =>
        questions := qs;
        outcome := Pass;
      case Failure(message) =>
        outcome := Fail(message);
    }

    /** `showQuestion`: clears the selection and the lock, then renders the current
        question. With no question at `currentQuestion` the rendering throws a
        TypeError after the reset (`rendered` is false) and the button is untouched. */
    method ShowQuestion() returns (rendered: bool)
      modifies this`selectedAnswer, this`isAnswered, this`nextEnabled, this`nextLabel
      ensures selectedAnswer == None && !isAnswered
      ensures rendered <==> currentQuestion < |questions|
      ensures rendered ==> !nextEnabled && nextLabel == LabelFor(currentQuestion, |questions|)
      ensures !rendered ==> nextEnabled == old(nextEnabled) && nextLabel == old(nextLabel)
    {
      selectedAnswer := None;
      isAnswered := false;
      if currentQuestion >= |questions| {
        return false;
      }
      nextEnabled := false;
      nextLabel := LabelFor(currentQuestion, |questions|);
      rendered := true;
    }

    /** `startQuiz` with the awaited fetch run to completion: the loading screen is
        shown, then either the first question on the quiz screen or the error screen.
        Timeouts scheduled earlier are not cancelled. */
    method StartQuiz(reply: Reply, decode: string -> string, rand: nat -> nat -> nat)
      requires Valid()
      modifies this
      ensures Valid()
      ensures pendingAdvances == old(pendingAdvances) && summary == old(summary)
      ensures !Accepted(reply) ==>
        questions == old(questions) && currentQuestion == old(currentQuestion) && score == old(score) &&
        selectedAnswer == old(selectedAnswer) && isAnswered == old(isAnswered) &&
        nextEnabled == old(nextEnabled) && nextLabel == old(nextLabel) &&
        screen == ErrorScreen && errorMessage == Text(LoadErrorMessage)
      ensures Accepted(reply) ==>
        questions == LoadQuestions(reply, decode, rand).value &&
        currentQuestion == 0 && score == 0 && selectedAnswer == None && !isAnswered
      ensures Accepted(reply) && questions != [] ==>
        screen == QuizScreen && !nextEnabled && nextLabel == LabelFor(0, |questions|) &&
        errorMessage == old(errorMessage)
      ensures Accepted(reply) && questions == [] ==>
        screen == ErrorScreen && errorMessage == MissingQuestionTypeError &&
        nextEnabled == old(nextEnabled) && nextLabel == old(nextLabel)
    {
      ShowScreen(LoadingScreen);
      var fetched := FetchQuestions(reply, decode, rand);
      if fetched.Fail? {
        ShowError(Text(fetched.error));
        return;
      }
      OpenFirstQuestion();
    }

    /** The rest of `startQuiz` once the questions are stored: index and score are
        reset and the first question is rendered on the quiz screen, or, when there
        is none, the rendering fails and the error screen is shown. */
    method OpenFirstQuestion()
      modifies this`currentQuestion, this`score, this`selectedAnswer, this`isAnswered
      modifies this`nextEnabled, this`nextLabel, this`screen, this`errorMessage
      ensures Valid()
      ensures currentQuestion == 0 && score == 0 && selectedAnswer == None && !isAnswered
      ensures questions != [] ==>
        screen == QuizScreen && !nextEnabled && nextLabel == LabelFor(0, |questions|) &&
        errorMessage == old(errorMessage)
      ensures questions == [] ==>
        screen == ErrorScreen && errorMessage == MissingQuestionTypeError &&
        nextEnabled == old(nextEnabled) && nextLabel == old(nextLabel)
    {
      currentQuestion := 0;
      score := 0;
      var rendered := ShowQuestion();
      if !rendered {
        ShowError(MissingQuestionTypeError);
        return;
      }
      ShowScreen(QuizScreen);
    }

    /** `selectAnswer`: ignored once the answer is locked in; otherwise the given
        answer replaces any earlier selection and the Next button is enabled. It is
        reached only from the option elements `showQuestion` renders, so the answer
        is one of the current question's choices. */
    method SelectAnswer(answer: string)
      requires Valid()
      requires currentQuestion < |questions| && answer in questions[currentQuestion].allAnswers
      modifies this`selectedAnswer, this`nextEnabled
      ensures Valid()
      ensures old(isAnswered) ==> selectedAnswer == old(selectedAnswer) && nextEnabled == old(nextEnabled)
      ensures !old(isAnswered) ==> selectedAnswer == Some(answer) && nextEnabled
    {
      if isAnswered {
        return;
      }
      selectedAnswer := Some(answer);
      nextEnabled := true;
    }

    /** `nextQuestion`: without a selection nothing changes. Otherwise the answer is
        locked in, the score rises by one exactly when the selection equals the
        correct answer, and one deferred advance is scheduled; the question index
        does not move. `isAnswered` is not consulted, so every further press scores
        again. */
    method NextQuestion()
      requires Valid()
      modifies this`isAnswered, this`score, this`pendingAdvances
      ensures Valid()
      ensures !old(HasSelection()) ==>
        isAnswered == old(isAnswered) && score == old(score) && pendingAdvances == old(pendingAdvances)
      ensures old(HasSelection()) ==>
        isAnswered &&
        score == old(score) + (if selectedAnswer.value == questions[currentQuestion].correctAnswer then 1 else 0) &&
        pendingAdvances == old(pendingAdvances) + 1
    {
      if !HasSelection() {
        return;
      }
      isAnswered := true;
      var isCorrect := selectedAnswer.value == questions[currentQuestion].correctAnswer;
      if isCorrect {
        score := score + 1;
      }
      pendingAdvances := pendingAdvances + 1;
    }

    /** `showResults`: the summary of the session and the results screen. */
    method ShowResults()
      requires questions != []
      modifies this`summary, this`screen
      ensures summary == Some(Summarise(score, |questions|)) && screen == ResultsScreen
    {
      summary := Some(Summarise(score, |questions|));
      ShowScreen(ResultsScreen);
    }

    /** The callback of the `setTimeout` in `nextQuestion`: moves to the next question
        while one remains, and otherwise shows the results. */
    method Advance()
      requires Valid() && pendingAdvances > 0 && questions != []
      modifies this
      ensures Valid()
      ensures pendingAdvances == old(pendingAdvances) - 1
      ensures questions == old(questions) && score == old(score) && errorMessage == old(errorMessage)
      ensures old(nextLabel) == ViewResultsLabel <==> screen == ResultsScreen && summary == Some(Summarise(score, |questions|)) && currentQuestion == old(currentQuestion)
      ensures old(currentQuestion) < |questions| - 1 ==>
        currentQuestion == old(currentQuestion) + 1 &&
        selectedAnswer == None && !isAnswered && !nextEnabled &&
        nextLabel == LabelFor(currentQuestion, |questions|) &&
        screen == old(screen) && summary == old(summary)
      ensures old(currentQuestion) >= |questions| - 1 ==>
        currentQuestion == old(currentQuestion) &&
        selectedAnswer == old(selectedAnswer) && isAnswered == old(isAnswered) &&
        nextEnabled == old(nextEnabled) && nextLabel == old(nextLabel) &&
        summary == Some(Summarise(score, |questions|)) && screen == ResultsScreen
    {
      pendingAdvances := pendingAdvances - 1;
      if currentQuestion < |questions| - 1 {
        currentQuestion := currentQuestion + 1;
        var rendered := ShowQuestion();
      } else {
        ShowResults();
      }
    }

    /** `restart`: back to the start screen; the session is reset by the next
        successful `startQuiz`. */
    method Restart()
      modifies this`screen
      ensures screen == StartScreen
    {
      ShowScreen(StartScreen);
    }
  }

  /** Pressing Next twice on a correct selection scores twice and schedules two
      advances, because `nextQuestion` never checks `isAnswered`. */
  method PressNextTwice(quiz: KateQuiz)
    requires quiz.Valid() && quiz.questions != [] && quiz.HasSelection()
    requires quiz.selectedAnswer.value == quiz.questions[quiz.currentQuestion].correctAnswer
    modifies quiz
    ensures quiz.Valid()
    ensures quiz.score == old(quiz.score) + 2 && quiz.pendingAdvances == old(quiz.pendingAdvances) + 2
    ensures quiz.currentQuestion == old(quiz.currentQuestion) && quiz.isAnswered
  {
    quiz.NextQuestion();
    quiz.NextQuestion();
  }

  /** A whole session over a one-question batch answered correctly: the results show
      1/1, 100 percent and the top tier. Restarting shows the start screen, and the
      next successful start resets the score, the index and the selection and shows
      the quiz screen again; the results summary is left as it was. */
  method OneQuestionSession(reply: Reply, decode: string -> string, rand: nat -> nat -> nat)
    returns (quiz: KateQuiz)
    requires Accepted(reply) && |reply.body.value.results| == 1
    requires decode(reply.body.value.results[0].correctAnswer) != ""
    ensures quiz.Valid()
    ensures quiz.summary == Some(Summary(1, 1, 100, TriviaMaster, Message(TriviaMaster)))
    ensures quiz.screen == QuizScreen && quiz.score == 0 && quiz.currentQuestion == 0
    ensures quiz.selectedAnswer == None && !quiz.isAnswered
  {
    quiz := new KateQuiz();
    quiz.StartQuiz(reply, decode, rand);
    assert |quiz.questions| == 1 && quiz.score == 0 && quiz.currentQuestion == 0;
    assert quiz.questions[0].correctAnswer == decode(reply.body.value.results[0].correctAnswer);
    var correct := quiz.questions[0].correctAnswer;
    assert correct in quiz.questions[0].allAnswers;
    quiz.SelectAnswer(correct);
    quiz.NextQuestion();
    assert quiz.score == 1 && quiz.currentQuestion == 0 && |quiz.questions| == 1;
    quiz.Advance();
    assert quiz.summary == Some(Summarise(1, 1));
    PercentageExtremes(1);
    quiz.Restart();
    assert quiz.screen == StartScreen;
    quiz.StartQuiz(reply, decode, rand);
  }
}
