/**
 * The quiz session of components/QuizScreen.tsx as a state machine over
 * discrete events. `Step` is the specification the imperative engine in
 * module QuizScreen is proved against; the lemmas below state what the
 * screen promises about whole runs of events.
 *
 * Time is discrete: `Tick` is one firing of the one-second interval and
 * `RevealElapsed` is the firing of the two-second reveal timeout.
 */
module QuizSession {
  import opened Wrappers

  const TotalQuestions: nat := 30
  const TimePerQuestion: nat := 15
  /** Message of the content-validation error (fewer than 30 questions). */
  const NotEnoughQuestions: string := "Không đủ câu hỏi được tạo ra."
  /** Message shown for an error whose own message is empty. */
  const UnknownError: string := "Lỗi không xác định."

  /** A question as delivered by the content provider. */
  datatype Question = Question(questionText: string, options: seq<string>, correctAnswer: string)

  /** What the screen shows: the spinner, the error with its retry button, a question, or nothing more (completed). */
  datatype Status = Loading | Failed(message: string) | Running | Finished(reported: nat)

  /**
   * The values the reveal timeout of `handleAnswer` captures when an answer is
   * accepted: the question index, the score as it was before this answer, and
   * whether the answer was correct.
   */
  datatype Captured = Captured(index: nat, scoreBefore: nat, isCorrect: bool)

  /**
   * The screen's state. `timerLive` says whether the interval held in
   * `timerRef` is running; `pending` is the scheduled reveal timeout. A single
   * boolean suffices here because no interval ever runs except the one held
   * in `timerRef`; the engine in module QuizScreen keeps the interval handles
   * and proves that as part of its invariant.
   */
  datatype Session = Session(
    status: Status,
    questions: seq<Question>,
    index: nat,
    score: nat,
    selected: Option<string>,
    answered: bool,
    timeLeft: nat,
    timerLive: bool,
    pending: Option<Captured>)

  /**
   * Events: the retry button, the settling of the two provider calls of one
   * load (questions, then the welcome audio), an answer (a clicked option, or
   * None for a timeout), one countdown tick, and the end of the reveal delay.
   */
  datatype Event =
    | Retry
    | Loaded(quiz: Result<seq<Question>>, audio: Outcome)
    | Submit(answer: Option<string>)
    | Tick
    | RevealElapsed

  /** The new state and, when the completion callback fires, the score passed to it. */
  datatype Stepped = Stepped(next: Session, report: Option<nat>)

  /** The state on mount: loading, nothing answered, the countdown showing 15 but not running. */
  function Initial(): Session {
    Session(Loading, [], 0, 0, None, false, TimePerQuestion, false, None)
  }

  /** Questions answered so far (the current one included once it is locked). */
  function AnsweredCount(s: Session): nat {
    match s.status
    case Finished(_) => TotalQuestions
    case Running => s.index + (if s.answered then 1 else 0)
    case _ => 0
  }

  /** The invariant of every state reachable from `Initial`. */
  ghost predicate Inv(s: Session) {
    && s.timeLeft <= TimePerQuestion
    && (s.timerLive ==> s.status.Running? && !s.answered && 1 <= s.timeLeft)
    && s.score <= AnsweredCount(s)
    && match s.status
       case Loading =>
         s.index == 0 && s.score == 0 && !s.answered && s.selected.None? && !s.timerLive && s.pending.None?
       case Failed(_) =>
         s.index == 0 && s.score == 0 && !s.answered && s.selected.None? && !s.timerLive && s.pending.None?
       case Running =>
         && |s.questions| >= TotalQuestions && s.index < TotalQuestions
         && (s.answered <==> s.pending.Some?)
         && (!s.answered ==> s.timerLive && s.selected.None?)
         && (s.pending.Some? ==>
               && s.pending.value.index == s.index
               && s.score == s.pending.value.scoreBefore + (if s.pending.value.isCorrect then 1 else 0))
       case Finished(n) =>
         n == s.score && s.answered && !s.timerLive && s.pending.None?
  }

  lemma InitialInv()
    ensures Inv(Initial())
  {}

  /** `e.message || "Lỗi không xác định."` */
  function ErrorText(message: string): (r: string)
    ensures r != []
    ensures message != [] ==> r == message
  {
    if message == [] then UnknownError else message
  }

  /** startTimer: clear the interval in timerRef, start a new one, show 15. */
  function StartTimer(s: Session): Session {
    s.(timeLeft := TimePerQuestion, timerLive := true)
  }

  /**
   * The continuation of fetchAndPrepareQuiz once the provider calls settle:
   * a rejected question fetch or a list shorter than 30 is an error and the
   * questions are not stored; an accepted list is stored before the audio
   * call, so a failed audio call leaves it stored but still shows the error;
   * otherwise loading ends and the first countdown starts.
   */
  function Load(s: Session, quiz: Result<seq<Question>>, audio: Outcome): Session {
    match quiz
    case Failure(m) => s.(status := Failed(ErrorText(m)))
    case Success(qs) =>
      if |qs| < TotalQuestions then s.(status := Failed(NotEnoughQuestions))
      else match audio
        case Fail(m) => s.(status := Failed(ErrorText(m)), questions := qs)
        case Pass => StartTimer(s.(status := Running, questions := qs))
  }

  /**
   * handleAnswer: ignored unless a question is on screen and not yet locked;
   * otherwise cancel the countdown, lock, record the answer, score by exact
   * equality with `correctAnswer`, and schedule the reveal timeout.
   */
  function Answer(s: Session, answer: Option<string>): Session
    requires Inv(s)
  {
    if !s.status.Running? || s.answered then s
    else
      var isCorrect := answer == Some(s.questions[s.index].correctAnswer);
      s.(timerLive := false, answered := true, selected := answer,
         score := if isCorrect then s.score + 1 else s.score,
         pending := Some(Captured(s.index, s.score, isCorrect)))
  }

  /**
   * One firing of the countdown interval. Above 1 it counts down; at 1 or
   * below it stops the interval, submits None through the same guarded
   * `Answer` as a click, and shows 0.
   *
   * In the source the interval callback is created by a `startTimer` memoised
   * with no dependencies, so the `handleAnswer` it calls is the one from the
   * first render (empty question list, lock false). This model gives the
   * timeout the intended path: the current `handleAnswer`. Stopping the
   * interval before the call and inside it are one and the same clear.
   */
  function CountDown(s: Session): Session
    requires Inv(s)
  {
    if !s.timerLive then s
    else if s.timeLeft <= 1 then Answer(s, None).(timeLeft := 0)
    else s.(timeLeft := s.timeLeft - 1)
  }

  /**
   * The reveal timeout: before the last question, advance to the next one
   * with the selection and the lock cleared and a fresh countdown; on the
   * last, call the completion callback with `isCorrect ? score + 1 : score`
   * computed from the values captured at submission.
   */
  function EndReveal(s: Session): Stepped {
    match s.pending
    case None => Stepped(s, None)
    case Some(c) =>
      if c.index < TotalQuestions - 1 then
        Stepped(StartTimer(s.(index := s.index + 1, selected := None, answered := false, pending := None)), None)
      else
        var final := if c.isCorrect then c.scoreBefore + 1 else c.scoreBefore;
        Stepped(s.(status := Finished(final), pending := None), Some(final))
  }

  /** One event. Events the current screen cannot produce leave the state alone. */
  function Step(s: Session, e: Event): (r: Stepped)
    requires Inv(s)
    ensures Inv(r.next)
    ensures r.report.Some? ==> r.next.status == Finished(r.report.value) && !s.status.Finished?
    ensures s.status.Finished? ==> r == Stepped(s, None)
    ensures !s.status.Loading? ==> r.next.questions == s.questions
  {
    match e
    case Retry =>
      if s.status.Failed? then Stepped(s.(status := Loading), None) else Stepped(s, None)
    case Loaded(quiz, audio) =>
      if s.status.Loading? then Stepped(Load(s, quiz, audio), None) else Stepped(s, None)
    case Submit(answer) => Stepped(Answer(s, answer), None)
    case Tick => Stepped(CountDown(s), None)
    case RevealElapsed => EndReveal(s)
  }

  /** The final state of a run of events and the scores reported on the way. */
  datatype Trace = Trace(final: Session, reports: seq<nat>)

  function Run(s: Session, events: seq<Event>): (t: Trace)
    requires Inv(s)
    ensures Inv(t.final)
    decreases |events|
  {
    if events == [] then Trace(s, [])
    else
      var st := Step(s, events[0]);
      var rest := Run(st.next, events[1..]);
      Trace(rest.final, Reported(st.report) + rest.reports)
  }

  // ---------------------------------------------------------------------
  // One submission

  /** While an answer is locked in, a further submission changes nothing. */
  lemma LockedSubmitIgnored(s: Session, answer: Option<string>)
    requires Inv(s) && s.answered
    ensures Step(s, Submit(answer)) == Stepped(s, None)
  {}

  /**
   * An accepted submission locks, records the answer, cancels the countdown
   * and raises the score by exactly one when the answer equals the current
   * question's `correctAnswer`, otherwise not at all.
   */
  lemma AcceptedSubmit(s: Session, answer: Option<string>)
    requires Inv(s) && s.status.Running? && !s.answered
    ensures var n := Step(s, Submit(answer)).next;
      && n.answered && n.selected == answer && !n.timerLive
      && n.index == s.index && n.questions == s.questions && n.timeLeft == s.timeLeft
      && (answer == Some(s.questions[s.index].correctAnswer) ==> n.score == s.score + 1)
      && (answer != Some(s.questions[s.index].correctAnswer) ==> n.score == s.score)
  {}

  /** A timeout (None) never scores. */
  lemma TimeoutNeverScores(s: Session)
    requires Inv(s)
    ensures Step(s, Submit(None)).next.score == s.score
  {}

  /** First submission wins: a click after a click, or a tick after a click, changes nothing. */
  lemma FirstSubmissionWins(s: Session, first: Option<string>, second: Event)
    requires Inv(s) && s.status.Running? && !s.answered
    requires second.Submit? || second.Tick?
    ensures Run(s, [Submit(first), second]) == Run(s, [Submit(first)])
  {
    var n := Step(s, Submit(first)).next;
    assert [Submit(first), second][1..] == [second];
    assert Step(n, second) == Stepped(n, None);
    assert Run(n, [second]) == Trace(n, []) by {
      assert [second][1..] == [];
    }
    assert [Submit(first)][1..] == [];
  }

  // ---------------------------------------------------------------------
  // The countdown

  function Ticks(n: nat): (r: seq<Event>)
    ensures |r| == n
  {
    if n == 0 then [] else [Tick] + Ticks(n - 1)
  }

  /** Fewer ticks than the time left only count down: nothing is submitted. */
  lemma {:induction false} CountdownRuns(s: Session, k: nat)
    requires Inv(s) && s.timerLive && k < s.timeLeft
    ensures Run(s, Ticks(k)) == Trace(s.(timeLeft := s.timeLeft - k), [])
    decreases k
  {
    if k > 0 {
      var n := s.(timeLeft := s.timeLeft - 1);
      assert Step(s, Tick).next == n;
      assert Ticks(k)[1..] == Ticks(k - 1);
      CountdownRuns(n, k - 1);
    }
  }

  /**
   * As many ticks as the time left expire the countdown: the result is the
   * same as submitting None, with 0 shown. A fresh question shows 15, so it
   * times out on its fifteenth tick.
   */
  lemma {:induction false} CountdownExpires(s: Session)
    requires Inv(s) && s.timerLive
    ensures Run(s, Ticks(s.timeLeft)) == Trace(Step(s, Submit(None)).next.(timeLeft := 0), [])
    decreases s.timeLeft
  {
    var t := s.timeLeft;
    assert Ticks(t)[1..] == Ticks(t - 1);
    if t > 1 {
      var n := s.(timeLeft := t - 1);
      assert Step(s, Tick).next == n;
      CountdownExpires(n);
      assert Answer(n, None).(timeLeft := 0) == Answer(s, None).(timeLeft := 0);
    }
  }

  /**
   * The two places a countdown is started, loading and the end of a reveal,
   * never find one running: the clear in `startTimer` is defensive.
   */
  lemma StartFindsNoneLive(s: Session)
    requires Inv(s) && (s.status.Loading? || s.pending.Some?)
    ensures !s.timerLive
  {}

  /** Every question's countdown starts at 15: after loading and after each advance. */
  lemma CountdownStartsFull(s: Session, e: Event)
    requires Inv(s) && (e.Loaded? || e.RevealElapsed?)
    requires !Step(s, e).next.answered && Step(s, e).next.status.Running?
    requires !(s.status.Running? && !s.answered)
    ensures Step(s, e).next.timeLeft == TimePerQuestion && Step(s, e).next.timerLive
  {}

  // ---------------------------------------------------------------------
  // Advancing and completing

  /** Before the last question the reveal moves on to the next question, unlocked, with a fresh countdown. */
  lemma RevealAdvances(s: Session)
    requires Inv(s) && s.status.Running? && s.answered && s.index < TotalQuestions - 1
    ensures var r := Step(s, RevealElapsed);
      && r.report.None?
      && r.next == s.(index := s.index + 1, selected := None, answered := false,
                      timeLeft := TimePerQuestion, timerLive := true, pending := None)
  {}

  /**
   * On the last question the reveal reports `isCorrect ? score + 1 : score`
   * from the captured values, and that is exactly the score after the final
   * increment, at most 30.
   */
  lemma CompletionReportsScore(s: Session)
    requires Inv(s) && s.status.Running? && s.answered && s.index == TotalQuestions - 1
    ensures Step(s, RevealElapsed).report == Some(s.score)
    ensures s.score <= TotalQuestions
  {}

  /**
   * Over any run, the completion callback fires at most once, with a score in
   * [0, 30] that stays the final state's reported score; after completion no
   * event changes anything.
   */
  lemma {:induction false} ReportedAtMostOnce(s: Session, events: seq<Event>)
    requires Inv(s)
    ensures var t := Run(s, events);
      && |t.reports| <= 1
      && (s.status.Finished? ==> t == Trace(s, []))
      && (t.reports != [] ==> t.final.status == Finished(t.reports[0]) && t.reports[0] <= TotalQuestions)
    decreases |events|
  {
    if events != [] {
      var st := Step(s, events[0]);
      ReportedAtMostOnce(st.next, events[1..]);
    }
  }

  /** Once the questions are accepted, no event replaces or reorders them. */
  lemma {:induction false} QuestionsFixed(s: Session, events: seq<Event>)
    requires Inv(s) && (s.status.Running? || s.status.Finished?)
    ensures Run(s, events).final.questions == s.questions
    decreases |events|
  {
    if events != [] {
      var st := Step(s, events[0]);
      QuestionsFixed(st.next, events[1..]);
    }
  }

  // ---------------------------------------------------------------------
  // Whole sessions

  /** Answering question by question: each answer, then the reveal delay. */
  function Answering(answers: seq<Option<string>>): (r: seq<Event>)
    ensures |r| == 2 * |answers|
  {
    if answers == [] then [] else [Submit(answers[0]), RevealElapsed] + Answering(answers[1..])
  }

  /** How many of `answers` equal the correct answer of the question at the same position. */
  function CorrectCount(qs: seq<Question>, answers: seq<Option<string>>): (n: nat)
    requires |answers| <= |qs|
    ensures n <= |answers|
  {
    if answers == [] then 0
    else (if answers[0] == Some(qs[0].correctAnswer) then 1 else 0) + CorrectCount(qs[1..], answers[1..])
  }

  /** Scores reported by one step, as a sequence. */
  function Reported(report: Option<nat>): seq<nat> {
    if report.Some? then [report.value] else []
  }

  /** Running two events and then the rest. */
  lemma RunTwo(s: Session, e1: Event, e2: Event, rest: seq<Event>)
    requires Inv(s)
    ensures var st1 := Step(s, e1);
      var st2 := Step(st1.next, e2);
      var t := Run(st2.next, rest);
      Run(s, [e1, e2] + rest) == Trace(t.final, Reported(st1.report) + Reported(st2.report) + t.reports)
  {
    var evs := [e1, e2] + rest;
    assert evs[0] == e1 && evs[1..][0] == e2 && evs[1..][1..] == rest;
  }

  /** One question answered and its reveal elapsed. */
  lemma AnswerThenReveal(s: Session, answer: Option<string>)
    requires Inv(s) && s.status.Running? && !s.answered
    ensures var st := Step(Step(s, Submit(answer)).next, RevealElapsed);
      var score := s.score + (if answer == Some(s.questions[s.index].correctAnswer) then 1 else 0);
      && Step(s, Submit(answer)).report.None?
      && (s.index < TotalQuestions - 1 ==>
            st.report.None? && st.next.status.Running? && !st.next.answered
            && st.next.index == s.index + 1 && st.next.score == score && st.next.questions == s.questions)
      && (s.index == TotalQuestions - 1 ==> st.report == Some(score) && st.next.status == Finished(score))
  {}

  /** Answering one question, then the rest: what the run reports. */
  lemma AnsweringUnfold(s: Session, answers: seq<Option<string>>)
    requires Inv(s) && s.status.Running? && !s.answered && answers != []
    ensures var st := Step(Step(s, Submit(answers[0])).next, RevealElapsed);
      var t := Run(st.next, Answering(answers[1..]));
      Run(s, Answering(answers)) == Trace(t.final, Reported(st.report) + t.reports)
  {
    assert Answering(answers) == [Submit(answers[0]), RevealElapsed] + Answering(answers[1..]);
    RunTwo(s, Submit(answers[0]), RevealElapsed, Answering(answers[1..]));
    AnswerThenReveal(s, answers[0]);
  }

  /**
   * From an unanswered question, answering it and every later one reports,
   * exactly once, the score so far plus the number of correct answers, and
   * presents the questions in their stored order.
   */
  lemma {:induction false} AnsweringReports(s: Session, answers: seq<Option<string>>)
    requires Inv(s) && s.status.Running? && !s.answered
    requires |answers| == TotalQuestions - s.index
    ensures var final := s.score + CorrectCount(s.questions[s.index..], answers);
      Run(s, Answering(answers)).reports == [final]
      && Run(s, Answering(answers)).final.status == Finished(final)
    decreases |answers|
  {
    var rest := answers[1..];
    var tail := s.questions[s.index..];
    assert CorrectCount(tail, answers)
      == (if answers[0] == Some(tail[0].correctAnswer) then 1 else 0) + CorrectCount(tail[1..], rest);
    AnsweringUnfold(s, answers);
    AnswerThenReveal(s, answers[0]);
    var st := Step(Step(s, Submit(answers[0])).next, RevealElapsed);
    if |answers| == 1 {
      assert Answering(rest) == [];
      assert CorrectCount(tail[1..], rest) == 0;
      assert Reported(st.report) + [] == Reported(st.report);
    } else {
      var n := st.next;
      assert n.questions == s.questions && n.index == s.index + 1;
      assert tail[0] == s.questions[s.index];
      assert tail[1..] == s.questions[s.index + 1..];
      AnsweringReports(n, rest);
      var t := Run(n, Answering(rest));
      assert Reported(st.report) + t.reports == t.reports;
    }
  }

  lemma {:induction false} CorrectCountAll(qs: seq<Question>, answers: seq<Option<string>>)
    requires |answers| <= |qs|
    requires forall k :: 0 <= k < |answers| ==> answers[k] == Some(qs[k].correctAnswer)
    ensures CorrectCount(qs, answers) == |answers|
  {
    if answers != [] {
      CorrectCountAll(qs[1..], answers[1..]);
    }
  }

  lemma {:induction false} CorrectCountAppend(qs: seq<Question>, a: seq<Option<string>>, b: seq<Option<string>>)
    requires |a| + |b| <= |qs|
    ensures CorrectCount(qs, a + b) == CorrectCount(qs, a) + CorrectCount(qs[|a|..], b)
  {
    if a == [] {
      assert a + b == b;
    } else {
      assert (a + b)[1..] == a[1..] + b;
      assert qs[1..][|a| - 1..] == qs[|a|..];
      CorrectCountAppend(qs[1..], a[1..], b);
    }
  }

  /**
   * A full session: 30 (or more) questions load, the student answers the
   * first 29 correctly and the 30th with anything else; the completion
   * callback fires once, with 29.
   */
  lemma TwentyNineOfThirty(qs: seq<Question>, answers: seq<Option<string>>)
    requires |qs| >= TotalQuestions && |answers| == TotalQuestions
    requires forall k :: 0 <= k < TotalQuestions - 1 ==> answers[k] == Some(qs[k].correctAnswer)
    requires answers[TotalQuestions - 1] != Some(qs[TotalQuestions - 1].correctAnswer)
    ensures Run(Initial(), [Loaded(Success(qs), Pass)] + Answering(answers)).reports == [29]
  {
    var evs := [Loaded(Success(qs), Pass)] + Answering(answers);
    var s := Step(Initial(), evs[0]).next;
    assert evs[1..] == Answering(answers);
    AnsweringReports(s, answers);
    assert s.questions[0..] == qs;
    assert answers == answers[..29] + answers[29..];
    CorrectCountAppend(qs, answers[..29], answers[29..]);
    CorrectCountAll(qs, answers[..29]);
    assert CorrectCount(qs[29..], answers[29..]) == 0 by {
      assert answers[29..][1..] == [];
    }
  }

  /**
   * A list shorter than 30 puts the session in the error state with its
   * message and stores no questions; retry clears the error and loads again.
   */
  lemma TooFewQuestions(s: Session, qs: seq<Question>, audio: Outcome)
    requires Inv(s) && s.status.Loading? && |qs| < TotalQuestions
    ensures var n := Step(s, Loaded(Success(qs), audio)).next;
      && n.status == Failed(NotEnoughQuestions) && n.questions == s.questions
      && Step(n, Retry).next == s
  {}
}
