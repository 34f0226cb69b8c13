/**
 * The top-level flow controller of App.tsx: four screens, welcome ->
 * subject_selection -> quiz -> results, with a replay edge from results back
 * to subject_selection. `Handle` gives the four handlers, `Render` the
 * guards of renderContent, and `Dispatch` routes a user action to the
 * handler of the screen that is rendered, which is the only screen holding
 * that callback.
 */
module Flow {
  import opened Wrappers
  import opened Registration

  /** The names on the three subject buttons, in their order on screen. */
  const Subjects: seq<string> := ["Toán", "Tiếng Việt", "Tự nhiên & Xã hội"]

  datatype GameState = Welcome | SubjectSelection | Quiz | Results

  datatype AppState = AppState(
    gameState: GameState,
    student: Option<Student>,
    selectedSubject: Option<string>,
    finalScore: nat)

  /** The app on start: welcome, nobody registered, no subject, score 0. */
  function Initial(): AppState {
    AppState(Welcome, None, None, 0)
  }

  /** The four callbacks App hands to its screens. */
  datatype Handler =
    | WelcomeSubmit(info: Student)
    | SubjectSelect(subject: string)
    | QuizComplete(score: nat)
    | PlayAgain

  /**
   * The handlers. None of them leads back to welcome, and only the welcome
   * submit touches the student.
   */
  function Handle(s: AppState, h: Handler): (r: AppState)
    ensures r.gameState != Welcome
    ensures !h.WelcomeSubmit? ==> r.student == s.student
  {
    match h
    case WelcomeSubmit(info) => s.(student := Some(info), gameState := SubjectSelection)
    case SubjectSelect(subject) => s.(selectedSubject := Some(subject), gameState := Quiz)
    case QuizComplete(score) => s.(finalScore := score, gameState := Results)
    case PlayAgain => s.(selectedSubject := None, finalScore := 0, gameState := SubjectSelection)
  }

  /** What renderContent puts on screen; `Blank` is a falsy guard rendering nothing. */
  datatype Screen =
    | WelcomeScreen
    | SubjectSelectionScreen(studentName: string)
    | QuizScreen(studentName: string, subject: string)
    | ResultsScreen(score: nat, studentName: string)
    | Blank

  /**
   * renderContent. The quiz screen needs a student and a subject (an empty
   * subject string is falsy too); subject selection and results need a
   * student; welcome needs nothing.
   */
  function Render(s: AppState): (v: Screen)
    ensures v.WelcomeScreen? <==> s.gameState == Welcome
    ensures v.SubjectSelectionScreen? <==> s.gameState == SubjectSelection && s.student.Some?
    ensures v.QuizScreen? <==>
      s.gameState == Quiz && s.student.Some? && s.selectedSubject.Some? && s.selectedSubject.value != ""
    ensures v.ResultsScreen? <==> s.gameState == Results && s.student.Some?
    ensures v.QuizScreen? ==> v.studentName == s.student.value.name && v.subject == s.selectedSubject.value
    ensures v.ResultsScreen? ==> v.score == s.finalScore && v.studentName == s.student.value.name
    ensures v.SubjectSelectionScreen? ==> v.studentName == s.student.value.name
  {
    match s.gameState
    case Welcome => WelcomeScreen
    case SubjectSelection =>
      if s.student.Some? then SubjectSelectionScreen(s.student.value.name) else Blank
    case Quiz =>
      if s.student.Some? && s.selectedSubject.Some? && s.selectedSubject.value != ""
      then QuizScreen(s.student.value.name, s.selectedSubject.value)
      else Blank
    case Results =>
      if s.student.Some? then ResultsScreen(s.finalScore, s.student.value.name) else Blank
  }

  /**
   * A user action: the welcome form, a subject button (by position), the
   * quiz screen's completion, or the play-again button.
   */
  datatype UiEvent =
    | FormSubmitted(name: string, className: string)
    | SubjectClicked(button: nat)
    | QuizFinished(score: nat)
    | PlayAgainClicked

  /** An action reaches a handler only through the screen rendered now; other actions do nothing. */
  function Dispatch(s: AppState, ev: UiEvent): AppState {
    match (Render(s), ev)
    case (WelcomeScreen, FormSubmitted(name, className)) =>
      var info := HandleSubmit(name, className);
      if info.Some? then Handle(s, WelcomeSubmit(info.value)) else s
    case (SubjectSelectionScreen(_), SubjectClicked(k)) =>
      if k < |Subjects| then Handle(s, SubjectSelect(Subjects[k])) else s
    case (QuizScreen(_, _), QuizFinished(score)) => Handle(s, QuizComplete(score))
    case (ResultsScreen(_, _), PlayAgainClicked) => Handle(s, PlayAgain)
    case _ => s
  }

  /** The invariant of every state the app reaches. */
  ghost predicate AppInv(s: AppState) {
    match s.gameState
    case Welcome =>
      s.student.None? && s.selectedSubject.None? && s.finalScore == 0
    case SubjectSelection =>
      s.student.Some? && ValidStudent(s.student.value) && s.selectedSubject.None? && s.finalScore == 0
    case Quiz =>
      s.student.Some? && ValidStudent(s.student.value)
      && s.selectedSubject.Some? && s.selectedSubject.value in Subjects && s.finalScore == 0
    case Results =>
      s.student.Some? && ValidStudent(s.student.value)
      && s.selectedSubject.Some? && s.selectedSubject.value in Subjects
  }

  lemma InitialAppInv()
    ensures AppInv(Initial())
  {}

  lemma DispatchPreservesInv(s: AppState, ev: UiEvent)
    requires AppInv(s)
    ensures AppInv(Dispatch(s, ev))
  {
    if Render(s).WelcomeScreen? && ev.FormSubmitted? {
      var r := HandleSubmit(ev.name, ev.className);
      if r.Some? {
        SubmittedIsTrimmed(ev.name, ev.className);
      }
    }
  }

  /** In every reachable state the render guards pass: the screen is never blank. */
  lemma NeverBlank(s: AppState)
    requires AppInv(s)
    ensures !Render(s).Blank?
  {
    if s.gameState == Quiz {
      assert s.selectedSubject.value != "";
    }
  }

  function RunApp(s: AppState, evs: seq<UiEvent>): AppState
    decreases |evs|
  {
    if evs == [] then s else RunApp(Dispatch(s, evs[0]), evs[1..])
  }

  /** Every state reached from the start satisfies the invariant. */
  lemma {:induction false} RunPreservesInv(s: AppState, evs: seq<UiEvent>)
    requires AppInv(s)
    ensures AppInv(RunApp(s, evs))
    decreases |evs|
  {
    if evs != [] {
      DispatchPreservesInv(s, evs[0]);
      RunPreservesInv(Dispatch(s, evs[0]), evs[1..]);
    }
  }

  /**
   * Once a student is registered, no sequence of actions changes or clears
   * it, and the app never returns to welcome.
   */
  lemma {:induction false} StudentPersists(s: AppState, evs: seq<UiEvent>)
    requires AppInv(s) && s.student.Some?
    ensures RunApp(s, evs).student == s.student
    ensures RunApp(s, evs).gameState != Welcome
    decreases |evs|
  {
    if evs != [] {
      var n := Dispatch(s, evs[0]);
      DispatchPreservesInv(s, evs[0]);
      assert n.student == s.student;
      StudentPersists(n, evs[1..]);
    }
  }

  /**
   * Welcome submit stores the (trimmed) student and moves to subject
   * selection; a blank field keeps the app on welcome, unchanged.
   */
  lemma WelcomeStep(name: string, className: string)
    ensures var r := Dispatch(Initial(), FormSubmitted(name, className));
      && (HandleSubmit(name, className).Some? ==>
            r == AppState(SubjectSelection, HandleSubmit(name, className), None, 0))
      && (HandleSubmit(name, className).None? ==> r == Initial())
  {}

  /**
   * Reachability: registration, a subject, completion and replay take the
   * app through all four states; the replay clears subject and score and
   * keeps the student.
   */
  lemma PlayThrough(name: string, className: string, button: nat, score: nat)
    requires HandleSubmit(name, className).Some? && button < |Subjects|
    ensures var st := HandleSubmit(name, className);
      var s1 := Dispatch(Initial(), FormSubmitted(name, className));
      var s2 := Dispatch(s1, SubjectClicked(button));
      var s3 := Dispatch(s2, QuizFinished(score));
      var s4 := Dispatch(s3, PlayAgainClicked);
      && s1 == AppState(SubjectSelection, st, None, 0)
      && s2 == AppState(Quiz, st, Some(Subjects[button]), 0)
      && s3 == AppState(Results, st, Some(Subjects[button]), score)
      && s4 == AppState(SubjectSelection, st, None, 0)
  {
    var st := HandleSubmit(name, className);
    SubmittedIsTrimmed(name, className);
    assert Subjects[button] != "";
  }

  /** App's state variables and handlers. */
  class App {
    var gameState: GameState
    var student: Option<Student>
    var selectedSubject: Option<string>
    var finalScore: nat

    function State(): AppState
      reads this
    {
      AppState(gameState, student, selectedSubject, finalScore)
    }

    constructor ()
      ensures State() == Initial()
    {
      gameState := Welcome;
      student := None;
      selectedSubject := None;
      finalScore := 0;
    }

    method HandleWelcomeSubmit(info: Student)
      modifies this
      ensures State() == Handle(old(State()), WelcomeSubmit(info))
      ensures gameState == SubjectSelection && student == Some(info)
      ensures selectedSubject == old(selectedSubject) && finalScore == old(finalScore)
    {
      student := Some(info);
      gameState := SubjectSelection;
    }

    method HandleSubjectSelect(subject: string)
      modifies this
      ensures State() == Handle(old(State()), SubjectSelect(subject))
      ensures gameState == Quiz && selectedSubject == Some(subject)
      ensures student == old(student) && finalScore == old(finalScore)
    {
      selectedSubject := Some(subject);
      gameState := Quiz;
    }

    method HandleQuizComplete(score: nat)
      modifies this
      ensures State() == Handle(old(State()), QuizComplete(score))
      ensures gameState == Results && finalScore == score
      ensures student == old(student) && selectedSubject == old(selectedSubject)
    {
      finalScore := score;
      gameState := Results;
    }

    method HandlePlayAgain()
      modifies this
      ensures State() == Handle(old(State()), PlayAgain)
      ensures gameState == SubjectSelection && selectedSubject.None? && finalScore == 0
      ensures student == old(student)
    {
      selectedSubject := None;
      finalScore := 0;
      gameState := SubjectSelection;
    }

    /** A user action delivered to the screen renderContent shows now. */
    method Deliver(ev: UiEvent)
      modifies this
      ensures State() == Dispatch(old(State()), ev)
    {
      match (Render(State()), ev) {
        case (WelcomeScreen, FormSubmitted(name, className)) =>
          var info := HandleSubmit(name, className);
          if info.Some? {
            HandleWelcomeSubmit(info.value);
          }
        case (SubjectSelectionScreen(_), SubjectClicked(k)) =>
          if k < |Subjects| {
            HandleSubjectSelect(Subjects[k]);
          }
        case (QuizScreen(_, _), QuizFinished(score)) =>
          HandleQuizComplete(score);
        case (ResultsScreen(_, _), PlayAgainClicked) =>
          HandlePlayAgain();
        case _ =>
      }
    }
  }
}
