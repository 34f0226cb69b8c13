/**
 * The quiz screen's state and handlers (components/QuizScreen.tsx) as an
 * object whose fields are the screen's state variables and whose methods are
 * its event handlers. Each method is proved to make the transition that
 * `QuizSession.Step` specifies, so the lemmas of module QuizSession apply to
 * every run of the engine.
 */
module QuizScreen {
  import opened Wrappers
  import opened QuizSession

  class QuizEngine {
    var questions: seq<Question>
    var currentQuestionIndex: nat
    var score: nat
    var selectedAnswer: Option<string>
    var isAnswered: bool
    var timeLeft: nat
    var isLoading: bool
    var error: Option<string>
    /** The handle of the last interval `startTimer` stored, if any. */
    var timerRef: Option<nat>
    /** The handles of the intervals the host is running. */
    var intervals: set<nat>
    /** The handle the host gives to the next interval it starts. */
    var nextHandle: nat
    /** The reveal timeout scheduled by the last accepted answer, with the values it captured. */
    var pendingReveal: Option<Captured>
    /** The score passed to `onQuizComplete`, once it has been called. */
    var completedWith: Option<nat>

    /** Whether the interval held in `timerRef` is running. */
    predicate TimerLive()
      reads this
    {
      timerRef.Some? && timerRef.value in intervals
    }

    /** Every running interval is the one held in `timerRef`: at most one runs. */
    predicate OnlyReferencedRuns()
      reads this
    {
      forall h :: h in intervals ==> timerRef == Some(h)
    }

    /** The state as a `Session` value. */
    function View(): Session
      reads this
    {
      var status :=
        if isLoading then Loading
        else if error.Some? then Failed(error.value)
        else if completedWith.Some? then Finished(completedWith.value)
        else Running;
      Session(status, questions, currentQuestionIndex, score, selectedAnswer,
              isAnswered, timeLeft, TimerLive(), pendingReveal)
    }

    ghost predicate Valid()
      reads this
    {
      && Inv(View())
      && OnlyReferencedRuns()
      && (isLoading ==> error.None? && completedWith.None?)
      && (error.Some? ==> completedWith.None?)
    }

    /** A question is on screen: not loading, no error, not completed. */
    predicate ShowingQuestion()
      reads this
    {
      !isLoading && error.None? && completedWith.None?
    }

    /** The screen on mount: loading, with the provider calls in flight. */
    constructor ()
      ensures Valid() && View() == Initial()
    {
      questions := [];
      currentQuestionIndex := 0;
      score := 0;
      selectedAnswer := None;
      isAnswered := false;
      timeLeft := TimePerQuestion;
      isLoading := true;
      error := None;
      timerRef := None;
      intervals := {};
      nextHandle := 0;
      pendingReveal := None;
      completedWith := None;
    }

    /**
     * startTimer: show 15, clear the interval held in `timerRef` if any, and
     * store a new running one. Starting from any state in which no interval
     * runs except the referenced one, exactly one interval runs afterwards,
     * the new one, held in `timerRef`. No other field changes.
     */
    method StartTimer()
      requires OnlyReferencedRuns()
      modifies this
      ensures timeLeft == TimePerQuestion && TimerLive() && OnlyReferencedRuns()
      ensures timerRef == Some(old(nextHandle)) && intervals == {old(nextHandle)}
      ensures questions == old(questions) && currentQuestionIndex == old(currentQuestionIndex)
      ensures score == old(score) && selectedAnswer == old(selectedAnswer) && isAnswered == old(isAnswered)
      ensures isLoading == old(isLoading) && error == old(error)
      ensures pendingReveal == old(pendingReveal) && completedWith == old(completedWith)
    {
      timeLeft := TimePerQuestion;
      if timerRef.Some? {
        intervals := intervals - {timerRef.value};
      }
      var handle := nextHandle;
      nextHandle := nextHandle + 1;
      intervals := intervals + {handle};
      timerRef := Some(handle);
    }

    /**
     * The retry button of the error screen: fetchAndPrepareQuiz starts over,
     * clearing the error and showing the spinner again.
     */
    method Retry()
      requires Valid() && !isLoading && error.Some?
      modifies this
      ensures Valid() && View() == Step(old(View()), Event.Retry).next
      ensures isLoading && error.None? && questions == old(questions)
    {
      isLoading := true;
      error := None;
    }

    /**
     * The continuation of fetchAndPrepareQuiz when the question fetch and then
     * the welcome audio settle. A list shorter than 30 raises the
     * content-validation error before the questions are stored.
     */
    method Load(quiz: Result<seq<Question>>, audio: Outcome)
      requires Valid() && isLoading
      modifies this
      ensures Valid() && View() == Step(old(View()), Loaded(quiz, audio)).next
      ensures !isLoading
      ensures quiz.Success? && |quiz.value| < TotalQuestions ==>
                error == Some(NotEnoughQuestions) && questions == old(questions)
    {
      match quiz {
        case Failure(m) =>
          error := Some(ErrorText(m));
          isLoading := false;
        case Success(qs) =>
          if |qs| < TotalQuestions {
            error := Some(NotEnoughQuestions);
            isLoading := false;
          } else {
            questions := qs;
            match audio {
              case Fail(m) =>
                error := Some(ErrorText(m));
                isLoading := false;
              case Pass =>
                isLoading := false;
                StartTimer();
            }
          }
      }
    }

    /**
     * handleAnswer: the one guarded entry point for clicks and timeouts.
     * Once an answer is locked in, nothing changes.
     */
    method HandleAnswer(answer: Option<string>)
      requires Valid() && ShowingQuestion()
      modifies this
      ensures Valid() && View() == Step(old(View()), Submit(answer)).next
      ensures old(isAnswered) ==> View() == old(View())
      ensures !old(isAnswered) ==> isAnswered && selectedAnswer == answer && intervals == {}
    {
      if isAnswered {
        return;
      }
      if timerRef.Some? {
        intervals := intervals - {timerRef.value};
      }
      isAnswered := true;
      selectedAnswer := answer;
      var isCorrect := answer == Some(questions[currentQuestionIndex].correctAnswer);
      var before := score;
      if isCorrect {
        score := score + 1;
      }
      pendingReveal := Some(Captured(currentQuestionIndex, before, isCorrect));
    }

    /**
     * One firing of the countdown interval. At 1 or below it stops, submits
     * None through `HandleAnswer` (whose own clear of the interval is the clear
     * the callback makes first) and shows 0.
     *
     * In the source this callback belongs to the first render's `startTimer`
     * (memoised with no dependencies), so it reaches the first render's
     * `handleAnswer`; this model follows the intended path instead.
     */
    method Tick()
      requires Valid() && TimerLive()
      modifies this
      ensures Valid() && View() == Step(old(View()), Event.Tick).next
    {
      if timeLeft <= 1 {
        HandleAnswer(None);
        timeLeft := 0;
      } else {
        timeLeft := timeLeft - 1;
      }
    }

    /**
     * The reveal timeout: advance to the next question with a fresh
     * countdown, or, after the last one, call `onQuizComplete` (the returned
     * score) with the values captured when the answer was accepted.
     */
    method RevealElapsed() returns (report: Option<nat>)
      requires Valid() && pendingReveal.Some?
      modifies this
      ensures Valid() && Step(old(View()), Event.RevealElapsed) == Stepped(View(), report)
      ensures report.Some? ==> report.value == old(score) && completedWith == report
    {
      var c := pendingReveal.value;
      pendingReveal := None;
      if c.index < TotalQuestions - 1 {
        currentQuestionIndex := currentQuestionIndex + 1;
        selectedAnswer := None;
        isAnswered := false;
        StartTimer();
        report := None;
      } else {
        report := Some(if c.isCorrect then c.scoreBefore + 1 else c.scoreBefore);
        completedWith := report;
      }
    }
  }
}
