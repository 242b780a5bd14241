/** The study-session state machine of app/domain/sessions.py. */
module Sessions {
  datatype SessionState =
    | New
    | ProfileReady
    | DiagnosticActive
    | DiagnosticComplete
    | PlanReady
    | QuestionActive
    | HintActive
    | AnswerEvaluated
    | WorkedExampleActive
    | MicroLessonActive
    | PracticeAdapted
    | Paused
    | SessionSummary
    | SessionCompleted

  function Transitions(source: SessionState): set<SessionState> {
    match source
    case New => {ProfileReady}
    case ProfileReady => {DiagnosticActive}
    case DiagnosticActive => {DiagnosticComplete}
    case DiagnosticComplete => {PlanReady}
    case PlanReady => {QuestionActive}
    case QuestionActive => {HintActive, AnswerEvaluated, Paused, SessionSummary}
    case HintActive => {QuestionActive, AnswerEvaluated, Paused, SessionSummary}
    case AnswerEvaluated =>
      {WorkedExampleActive, MicroLessonActive, PracticeAdapted, QuestionActive, Paused, SessionSummary}
    case WorkedExampleActive => {QuestionActive, Paused, SessionSummary}
    case MicroLessonActive => {QuestionActive, Paused, SessionSummary}
    case PracticeAdapted => {QuestionActive, Paused, SessionSummary}
    case Paused => {QuestionActive, Paused, SessionSummary}
    case SessionSummary => {SessionCompleted}
    case SessionCompleted => {}
  }

  predicate CanTransition(source: SessionState, target: SessionState) {
    target in Transitions(source)
  }

  /** States grow along every run towards the summary; only the practice loop goes back. */
  function Stage(s: SessionState): nat {
    match s
    case New => 0
    case ProfileReady => 1
    case DiagnosticActive => 2
    case DiagnosticComplete => 3
    case PlanReady => 4
    case SessionSummary => 6
    case SessionCompleted => 7
    case _ => 5
  }

  ghost predicate Run(states: seq<SessionState>) {
    |states| > 0 && forall i :: 0 <= i < |states| - 1 ==> CanTransition(states[i], states[i + 1])
  }

  /** Over every run of transitions a session never returns to an earlier stage: once it is
      summarised it is never practised again, and once completed it has ended. */
  lemma {:induction false} RunsNeverReturn(states: seq<SessionState>, i: nat, j: nat)
    requires Run(states) && i <= j < |states|
    ensures Stage(states[i]) <= Stage(states[j])
    ensures states[i] == SessionCompleted ==> i == |states| - 1
    ensures Stage(states[i]) == Stage(states[j]) && i < j ==> Stage(states[i]) == 5
    decreases j - i
  {
    if i < |states| - 1 {
      assert CanTransition(states[i], states[i + 1]);
      if i < j {
        RunsNeverReturn(states, i + 1, j);
      }
    }
  }
}
