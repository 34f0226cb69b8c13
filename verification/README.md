# Quiz session, flow controller and registration form — a Dafny model

This project models the logic of a single-page quiz for young students: a
welcome form, a subject picker, a timed 30-question multiple-choice quiz, and
a results screen. Three pieces carry the app's state and rules:

- **Registration** (`registration.dfy`, module `Registration`): the welcome
  form's `handleSubmit`. Both fields are trimmed with ECMAScript `trim`. The
  form submits only when both trimmed values are non-empty, and it submits
  the trimmed values. `Trim` is defined over the exact set of code points
  that `String.prototype.trim` removes.
- **Quiz session** (`quiz_session.dfy`, module `QuizSession`; `quiz_screen.dfy`,
  module `QuizScreen`): the quiz screen's state machine. `Session` holds the
  screen's state, and `Step` gives its reaction to each event: retry,
  settlement of the provider calls, a submitted answer, one countdown tick,
  and the end of the reveal delay. The class `QuizScreen.QuizEngine` has
  the screen's state variables as fields and its handlers as methods, and
  each method is proved to perform the transition `Step` specifies. The
  lemmas state the screen's promises:
  - the answer lock, and scoring by exact equality;
  - the countdown from 15 and the automatic timeout;
  - advancing to the next question;
  - one completion report, with the final score.
- **Flow controller** (`flow.dfy`, module `Flow`): App's four screens
  (welcome, subject selection, quiz, results), with the replay edge. It
  covers the four handlers, the render guards of `renderContent`, and the
  routing of a user action to the handler of the screen that is shown. The
  class `Flow.App` has App's state variables and handlers.

Time is discrete. `Tick` is one firing of the one-second interval.
`RevealElapsed` is the firing of the two-second reveal timeout. The engine
keeps the host's running intervals as a set of handles next to `timerRef`,
and its invariant says that no interval runs except the one `timerRef` holds. The content
provider is not modelled: the settled results of its two calls are the
arguments of the `Loaded` event (`QuizScreen.QuizEngine.Load`). `Wrappers`
(`wrappers.dfy`) holds the `Option`, `Result` and `Outcome` datatypes.

Some behaviours of the code that the model keeps as written:
- Questions are not checked for four options, or for a `correctAnswer`
  that is one of the options. The request to the provider asks for both,
  but the code checks neither, and the model assumes neither.
- A list of 30 or more questions is stored before the welcome audio is
  requested. If only the audio call fails, the questions stay stored while
  the error screen is shown.
- The score reported on completion is computed as `isCorrect ? score + 1 :
  score` from the values captured when the last answer was accepted. The
  model keeps that computation. `CompletionReportsScore` proves that it
  equals the score after the final increment.
- A failed `student && …` guard in `renderContent` renders nothing rather
  than the welcome screen (`Flow.Screen.Blank`). The `default` branch cannot
  be reached, because the game state is a closed set of four values.
  `NeverBlank` shows that a failed guard never happens in a reachable state.

The methods of `QuizEngine` require the state in which their trigger exists:
- retry: only while the error screen, with its retry button, is shown;
- a tick: only while the interval is running;
- the reveal: only while its timeout is pending;
- an answer: only while a question is shown.

## Model

| member | source | states |
|---|---|---|
| `Registration.Trim` | components/WelcomeScreen.tsx:15-16 | The result is the infix of the input left after removing leading and trailing trimmable characters: every removed character is trimmable, none remains at either end, and the result is empty exactly when the input has no visible character |
| `Registration.TrimOfPadded` | components/WelcomeScreen.tsx:15-16 | Independent characterisation: for any whitespace prefix and suffix around a non-empty core with no whitespace at its ends, trim returns exactly that core |
| `Registration.TrimIdempotent` | components/WelcomeScreen.tsx:16 | Trimming a trimmed value again changes nothing |
| `Registration.HandleSubmit` | components/WelcomeScreen.tsx:13-18 | A student is submitted if and only if both fields hold a visible character; its fields are then the trimmed inputs, non-empty and without whitespace at either end; at most one record per submit |
| `Registration.SubmittedIsTrimmed` | components/WelcomeScreen.tsx:16 | A submitted record is a valid student, and trimming either field again is a no-op |
| `QuizSession.InitialInv` | components/QuizScreen.tsx:18-25 | The mount state (loading, index 0, score 0, no selection, unlocked, 15 shown, no countdown running) satisfies the session invariant |
| `QuizSession.ErrorText` | components/QuizScreen.tsx:81-83 | The error shown is never empty; a non-empty error message is shown as it is |
| `QuizSession.Step` | components/QuizScreen.tsx:39-124 | Every event preserves the invariant: score at most the questions answered; a running countdown only while an unlocked question is shown, with 1 to 15 left; the pending reveal holds the index and pre-answer score; a report moves to the completed state; after completion nothing changes; once loaded, the questions never change |
| `QuizSession.LockedSubmitIgnored` | components/QuizScreen.tsx:97-98 | While an answer is locked in, a submission changes nothing at all |
| `QuizSession.AcceptedSubmit` | components/QuizScreen.tsx:99-112 | An accepted submission locks, records the given answer, cancels the countdown, keeps index and questions, and raises the score by exactly one when the answer equals `correctAnswer` and leaves it unchanged otherwise |
| `QuizSession.TimeoutNeverScores` | components/QuizScreen.tsx:106-112 | Submitting null (a timeout) never changes the score |
| `QuizSession.FirstSubmissionWins` | components/QuizScreen.tsx:97-102 | After an accepted answer, a second click or a late countdown tick leaves the outcome exactly as the first answer made it |
| `QuizSession.CountdownRuns` | components/QuizScreen.tsx:44-52 | Fewer ticks than the time left only decrement the counter, one per tick, and submit nothing |
| `QuizSession.CountdownExpires` | components/QuizScreen.tsx:44-53 | As many ticks as the time left stop the countdown, show 0 and have the same effect as submitting null; nothing is reported |
| `QuizSession.CountdownStartsFull` | components/QuizScreen.tsx:39-44 | Whenever a question becomes unlocked on screen (after loading or after an advance), its countdown is running and shows 15 |
| `QuizSession.RevealAdvances` | components/QuizScreen.tsx:114-119 | Below the last question the reveal moves to index + 1 with selection cleared, lock cleared and a fresh 15-unit countdown, and reports nothing |
| `QuizSession.CompletionReportsScore` | components/QuizScreen.tsx:106-122 | On the last question the reveal reports `isCorrect ? score + 1 : score`, and this equals the score after the final increment, at most 30 |
| `QuizSession.ReportedAtMostOnce` | components/QuizScreen.tsx:114-123 | Over any sequence of events the completion callback fires at most once, with a score in [0, 30] that the completed state keeps; from the completed state every run changes nothing |
| `QuizSession.QuestionsFixed` | components/QuizScreen.tsx:60-64 | Once the questions are accepted, no sequence of events replaces or reorders them |
| `QuizSession.AnswerThenReveal` | components/QuizScreen.tsx:97-123 | Answering an unlocked question and letting the reveal elapse advances to the next question with the score raised by the answer's correctness, or on the last question reports that score |
| `QuizSession.AnsweringReports` | components/QuizScreen.tsx:97-123 | Answering every remaining question in order reports exactly once the score so far plus the number of answers equal to the `correctAnswer` of the question at their position |
| `QuizSession.TwentyNineOfThirty` | components/QuizScreen.tsx:56-123 | Loading 30 questions and answering the first 29 correctly and the last incorrectly reports exactly 29 |
| `QuizSession.TooFewQuestions` | components/QuizScreen.tsx:58-64 | A list shorter than 30 gives the not-enough-questions error and stores no questions; retry then returns to the loading state it came from |
| `QuizScreen.QuizEngine.constructor` | components/QuizScreen.tsx:18-27 | The engine starts in the mount state `QuizSession.Initial` |
| `QuizScreen.QuizEngine.StartTimer` | components/QuizScreen.tsx:39-54 | Shows 15 and, from any state in which no interval runs except the one held in `timerRef`, clears that one and starts a fresh one: afterwards exactly one interval runs and `timerRef` holds it; no other field changes |
| `QuizSession.StartFindsNoneLive` | components/QuizScreen.tsx:39-44 | In every reachable state where a countdown is started (while loading, or with a reveal pending) none is running, so the clear in `startTimer` never has a running interval to stop |
| `QuizScreen.QuizEngine.Retry` | components/QuizScreen.tsx:56-59 | Clears the error and shows loading again, keeping the questions; the transition `Step` gives for retry |
| `QuizScreen.QuizEngine.Load` | components/QuizScreen.tsx:56-84 | Makes the transition `Step` gives for the settled provider calls; a list shorter than 30 sets the not-enough-questions error and leaves the questions unchanged |
| `QuizScreen.QuizEngine.HandleAnswer` | components/QuizScreen.tsx:97-112 | Makes the transition `Step` gives for a submission: nothing changes when locked, otherwise locked with the answer recorded and the countdown stopped |
| `QuizScreen.QuizEngine.Tick` | components/QuizScreen.tsx:44-53 | Makes the transition `Step` gives for one firing of the countdown |
| `QuizScreen.QuizEngine.RevealElapsed` | components/QuizScreen.tsx:114-123 | Makes the transition `Step` gives for the reveal timeout; a completion report equals the score before the call and is recorded |
| `Flow.InitialAppInv` | App.tsx:12-15 | The start state (welcome, no student, no subject, score 0) satisfies the app invariant |
| `Flow.Handle` | App.tsx:17-36 | No handler leads back to welcome, and no handler but the welcome submit changes the student |
| `Flow.Render` | App.tsx:38-51 | Welcome is shown exactly in welcome; subject selection and results exactly when their state has a student; the quiz exactly when its state has a student and a non-empty subject; every screen but welcome gets the student's name, the quiz the subject and results the final score |
| `Flow.DispatchPreservesInv` | App.tsx:38-49 | An action routed through the rendered screen keeps the invariant: welcome has nothing set; every other state has a valid trimmed student; subject selection has no subject and score 0; quiz and results have one of the three subjects |
| `Flow.NeverBlank` | App.tsx:43-47 | In every reachable state the render guards pass, so a screen is always shown |
| `Flow.RunPreservesInv` | App.tsx:17-49 | Every state reached by any sequence of actions satisfies the invariant |
| `Flow.StudentPersists` | App.tsx:17-36 | Once a student is set, no sequence of actions changes or clears it, and the app never returns to welcome |
| `Flow.WelcomeStep` | App.tsx:17-20 | A valid form submit stores the trimmed student and moves to subject selection; a blank field leaves the start state unchanged |
| `Flow.PlayThrough` | App.tsx:17-36 | Welcome, subject selection, quiz and results are all reachable in order; replay returns to subject selection with subject cleared, score 0 and the student kept |
| `Flow.App.constructor` | App.tsx:12-15 | The app starts in the start state |
| `Flow.App.HandleWelcomeSubmit` | App.tsx:17-20 | Stores the student and moves to subject selection; subject and score unchanged |
| `Flow.App.HandleSubjectSelect` | App.tsx:22-25 | Stores the subject and moves to quiz; student and score unchanged |
| `Flow.App.HandleQuizComplete` | App.tsx:27-30 | Stores the score as the final score and moves to results; student and subject unchanged |
| `Flow.App.HandlePlayAgain` | App.tsx:32-36 | Clears the subject, resets the final score to 0 and moves to subject selection; student unchanged |
| `Flow.App.Deliver` | App.tsx:38-51 | A user action reaches exactly the handler of the screen currently rendered, as `Dispatch` specifies |

## Left out

- The content provider (services/geminiService.ts) is not modelled. It covers the prompt text, the JSON schema, the remote call and the parsing of the reply. Its two settled results are arguments of `Loaded`, and its error messages are arbitrary strings.
- Audio is not modelled: the correct and incorrect cues, the synthesized welcome clip, its decoding (utils/audioUtils is not part of this model) and the 24000 Hz audio context. Only the success or failure of the welcome-audio call is kept, because that failure shows the error screen.
- Real time, `async`/`await` and React's deferred state updates are not modelled. Each handler's batch of state updates is applied as one step, and timers are the explicit `Tick` and `RevealElapsed` events.
- The timeout's stale closure is not reproduced. `startTimer` is memoised with no dependencies (components/QuizScreen.tsx:39-54), so the interval calls the first render's `handleAnswer`, whose question list is empty and whose lock reads false. There `questions[currentQuestionIndex].correctAnswer` (components/QuizScreen.tsx:106) throws a TypeError inside the `setTimeLeft` updater, so the code as written never completes a timeout submission. The model sends the timeout through the current, guarded `handleAnswer`, which is the intended single submit path; `QuizSession.CountdownExpires` and `QuizScreen.QuizEngine.Tick` describe that intended path only.
- Unmount cleanup (components/QuizScreen.tsx:90-94) is not an event of the model. The screen is unmounted only after the completion callback, and in that state the invariant already says no countdown is running and no reveal is pending.
- Presentation is not modelled: the progress percentage, the button classes, the confetti (which uses `Math.random()`), the perfect-score check of the results screen (components/ResultsScreen.tsx:30) and CSS. The subject screen appears only as its three subject names (`Flow.Subjects`).
- The form's input bindings (`setName`, `setClassName`) are not modelled. `Registration.HandleSubmit` takes the two field values as they stand at submit time.
- JavaScript strings are sequences of UTF-16 code units, while Dafny `char` values are Unicode scalar values. Every code point that trim removes lies in the Basic Multilingual Plane, so trimming agrees on both.
