/** The bounded teaching policy of app/agent/policy.py, with the promotion and support rules
    of app/domain/learner.py. */
module Policy {
  import opened Common
  import opened Ordering
  import opened Sessions

  datatype BoundedAction =
    | AskQuestion
    | GiveHint1
    | GiveHint2
    | GiveHint3
    | ShowMicroLesson
    | ShowWorkedExample
    | RetrySameSkill
    | LowerDifficulty
    | RaiseDifficulty
    | SwitchToPrerequisite
    | ScheduleReview
    | EndWithReview
    | EndSession

  datatype ReasonCode =
    | TimeBudgetExhausted
    | RecalledSuccessfulEpisode
    | RecalledInterventionConflict
    | PrerequisiteBlocker
    | RepeatedMisconception
    | RepeatedSkillErrors
    | MisconceptionObserved
    | SupportNeeded
    | MasteryPromotion
    | ContinuePractice

  /** A recalled intervention is a string; None stands for one that names no bounded action. */
  datatype PolicyInput = PolicyInput(
    skill: string,
    subskill: Option<string>,
    difficulty: int,
    mastery: real,
    confidence: real,
    consecutiveErrors: int,
    correctStreak: int,
    repeatedMisconception: bool,
    activeMisconception: Option<string>,
    misconceptionObservationCount: int,
    requiresUnmasteredPrerequisite: bool,
    minutesRemaining: int,
    recalledSuccessfulEpisode: bool,
    recalledEpisodeIds: seq<string>,
    recalledInterventions: seq<Option<BoundedAction>>,
    recalledIdsByIntervention: map<BoundedAction, seq<string>>,
    recentCorrectWithoutHighHint: int,
    recentTotal: int)

  datatype Payload =
    | TimeReview
    | OnMisconception(skill: string, subskill: Option<string>, misconception: Option<string>)
    | OnSkill(skill: string, difficulty: int)

  datatype AgentDecision = AgentDecision(
    action: BoundedAction,
    payload: Payload,
    reason: ReasonCode,
    targetSkill: string,
    difficulty: int,
    episodeIds: seq<string>)

  datatype PolicyConstraints = PolicyConstraints(
    hardAction: Option<BoundedAction>,
    allowedActions: seq<BoundedAction>,
    preferredFallback: AgentDecision,
    nextStates: map<BoundedAction, SessionState>,
    reasons: seq<ReasonCode>)

  // ---- rules of app/domain/learner.py

  predicate ShouldPromoteDifficulty(mastery: real, confidence: real, recentCorrect: int, recentTotal: int,
                                    activeMisconception: bool)
  {
    mastery >= 0.72 && confidence >= 0.55 && !activeMisconception && recentTotal >= 3 && recentCorrect >= 2
  }

  predicate ShouldSupport(mastery: real, confidence: real, consecutiveErrors: int, repeatedMisconception: bool,
                          prerequisite: bool)
  {
    consecutiveErrors >= 2 || repeatedMisconception || (mastery < 0.45 && confidence >= 0.40) || prerequisite
  }

  // ---- recalled interventions

  predicate Reusable(a: BoundedAction) {
    a == ShowWorkedExample || a == ShowMicroLesson
  }

  /** The distinct reusable actions among the raw names, in order of first appearance. */
  function ReusableActions(raw: seq<Option<BoundedAction>>): seq<BoundedAction> {
    if raw == [] then []
    else
      var earlier := ReusableActions(raw[..|raw| - 1]);
      match raw[|raw| - 1]
      case Some(action) => if Reusable(action) && action !in earlier then earlier + [action] else earlier
      case None => earlier
  }

  method CollectReusableActions(raw: seq<Option<BoundedAction>>) returns (recalled: seq<BoundedAction>)
    ensures recalled == ReusableActions(raw)
    ensures forall a :: a in recalled <==> Some(a) in raw && Reusable(a)
    ensures NoRepeats(recalled)
  {
    recalled := [];
    for i := 0 to |raw|
      invariant recalled == ReusableActions(raw[..i])
      invariant forall a :: a in recalled <==> Some(a) in raw[..i] && Reusable(a)
      invariant NoRepeats(recalled)
    {
      assert raw[..i + 1] == raw[..i] + [raw[i]];
      assert raw[..i + 1][..i] == raw[..i];
      match raw[i]
      case None =>
      case Some(action) =>
        if Reusable(action) && action !in recalled {
          recalled := recalled + [action];
        }
    }
    assert raw[..|raw|] == raw;
  }

  lemma {:induction false} ReusableActionsAre(raw: seq<Option<BoundedAction>>)
    ensures forall a :: a in ReusableActions(raw) <==> Some(a) in raw && Reusable(a)
    ensures NoRepeats(ReusableActions(raw))
  {
    if raw != [] {
      var init := raw[..|raw| - 1];
      ReusableActionsAre(init);
      assert raw == init + [raw[|raw| - 1]];
    }
  }

  function RecalledActions(inputs: PolicyInput): seq<BoundedAction> {
    var recalled := ReusableActions(inputs.recalledInterventions);
    if inputs.recalledSuccessfulEpisode && recalled == [] then [ShowWorkedExample] else recalled
  }

  lemma RecalledActionsAre(inputs: PolicyInput)
    ensures forall a :: a in RecalledActions(inputs) ==> Reusable(a)
    ensures NoRepeats(RecalledActions(inputs))
  {
    ReusableActionsAre(inputs.recalledInterventions);
  }

  /** `dict.fromkeys`: the distinct values in order of first appearance. */
  function FromKeys<T(==)>(s: seq<T>): seq<T> {
    if s == [] then []
    else
      var earlier := FromKeys(s[..|s| - 1]);
      if s[|s| - 1] in earlier then earlier else earlier + [s[|s| - 1]]
  }

  lemma {:induction false} FromKeysAre<T>(s: seq<T>)
    ensures forall x :: x in FromKeys(s) <==> x in s
    ensures NoRepeats(FromKeys(s))
  {
    if s != [] {
      FromKeysAre(s[..|s| - 1]);
      assert s == s[..|s| - 1] + [s[|s| - 1]];
    }
  }

  /** The actions with an entry in the table below. */
  predicate Listed(a: BoundedAction) {
    || a == ShowWorkedExample || a == ShowMicroLesson || a == RetrySameSkill
    || a == LowerDifficulty || a == RaiseDifficulty || a == SwitchToPrerequisite || a == EndWithReview
  }

  /** NEXT_STATE_BY_ACTION. */
  function NextStateByAction(a: BoundedAction): SessionState
    requires Listed(a)
  {
    match a
    case ShowWorkedExample => WorkedExampleActive
    case ShowMicroLesson => MicroLessonActive
    case RetrySameSkill => QuestionActive
    case EndWithReview => SessionSummary
    case _ => PracticeAdapted
  }

  function WithoutRecall(inputs: PolicyInput): PolicyInput {
    inputs.(recalledSuccessfulEpisode := false, recalledEpisodeIds := [],
    recalledInterventions := [], recalledIdsByIntervention := map[])
  }

  function WithRecalledStates(states: map<BoundedAction, SessionState>, recalled: seq<BoundedAction>):
      map<BoundedAction, SessionState>
    requires forall a :: a in recalled ==> Reusable(a)
  {
    if recalled == [] then states
    else
      var last := recalled[|recalled| - 1];
      assert Reusable(last);
      WithRecalledStates(states, recalled[..|recalled| - 1])[last := NextStateByAction(last)]
  }

  function Decide(inputs: PolicyInput, action: BoundedAction, reason: ReasonCode, payload: Payload,
                  difficulty: int, episodeIds: seq<string>): AgentDecision {
    AgentDecision(action, payload, reason, inputs.skill, difficulty, episodeIds)
  }

  function Min(a: int, b: int): int { if a <= b then a else b }

  function Max(a: int, b: int): int { if a >= b then a else b }

  // ---- derive_policy_constraints

  function DerivePolicyConstraints(inputs: PolicyInput): (c: PolicyConstraints)
    decreases |RecalledActions(inputs)|
  {
    RecalledActionsAre(inputs);
    var recalled := RecalledActions(inputs);
    var d := inputs.difficulty;
    if inputs.minutesRemaining <= 2 then
      Forced(Decide(inputs, EndWithReview, TimeBudgetExhausted, TimeReview, d, []), SessionSummary)
    else if |recalled| == 1 then
      var action := recalled[0];
      assert Reusable(action);
      var ids := if action in inputs.recalledIdsByIntervention then inputs.recalledIdsByIntervention[action]
                 else inputs.recalledEpisodeIds;
      Forced(Decide(inputs, action, RecalledSuccessfulEpisode,
                    OnMisconception(inputs.skill, inputs.subskill, inputs.activeMisconception), d, ids),
             NextStateByAction(action))
    else if |recalled| > 1 then
      var base := DerivePolicyConstraints(WithoutRecall(inputs));
      if base.hardAction.Some? then base else Widened(base, recalled)
    else
      UnrecalledConstraints(inputs)
  }

  /** The constraints without recall, widened by the conflicting strategies. */
  function Widened(base: PolicyConstraints, recalled: seq<BoundedAction>): PolicyConstraints
    requires forall a :: a in recalled ==> Reusable(a)
  {
    PolicyConstraints(
      None,
      FromKeys(base.allowedActions + recalled),
      base.preferredFallback,
      WithRecalledStates(base.nextStates, recalled),
      FromKeys(base.reasons + [RecalledInterventionConflict]))
  }

  function Forced(decision: AgentDecision, next: SessionState): PolicyConstraints {
    PolicyConstraints(Some(decision.action), [decision.action], decision, map[decision.action := next],
                      [decision.reason])
  }

  function Open(allowed: seq<BoundedAction>, decision: AgentDecision, states: map<BoundedAction, SessionState>)
      : PolicyConstraints
  {
    PolicyConstraints(None, allowed, decision, states, [decision.reason])
  }

  function UnrecalledConstraints(inputs: PolicyInput): (c: PolicyConstraints) {
    var d := inputs.difficulty;
    var onSkill := OnSkill(inputs.skill, d);
    var onMisconception := OnMisconception(inputs.skill, inputs.subskill, inputs.activeMisconception);
    var active := Truthy(inputs.activeMisconception);
    if inputs.requiresUnmasteredPrerequisite then
      Forced(Decide(inputs, SwitchToPrerequisite, PrerequisiteBlocker, onSkill, d, []), PracticeAdapted)
    else if inputs.consecutiveErrors >= 2 || (active && inputs.misconceptionObservationCount >= 2) then
      Open([RetrySameSkill, ShowWorkedExample, ShowMicroLesson],
           if active then Decide(inputs, ShowWorkedExample, RepeatedMisconception, onMisconception, d, [])
           else Decide(inputs, ShowMicroLesson, RepeatedSkillErrors, onSkill, d, []),
           map[RetrySameSkill := QuestionActive, ShowWorkedExample := WorkedExampleActive,
               ShowMicroLesson := MicroLessonActive])
    else if inputs.activeMisconception.Some? then
      Open([RetrySameSkill],
           Decide(inputs, RetrySameSkill, MisconceptionObserved, onSkill, d, []),
           map[RetrySameSkill := QuestionActive])
    else if ShouldSupport(inputs.mastery, inputs.confidence, inputs.consecutiveErrors, inputs.repeatedMisconception,
                          false) then
      Open([ShowWorkedExample, ShowMicroLesson, LowerDifficulty],
           if inputs.repeatedMisconception then Decide(inputs, ShowWorkedExample, RepeatedMisconception, onSkill, d, [])
           else Decide(inputs, LowerDifficulty, SupportNeeded, OnSkill(inputs.skill, Max(1, d - 1)), Max(1, d - 1), []),
           map[ShowWorkedExample := WorkedExampleActive, ShowMicroLesson := MicroLessonActive,
               LowerDifficulty := PracticeAdapted])
    else if inputs.correctStreak >= 2
         && ShouldPromoteDifficulty(inputs.mastery, inputs.confidence, inputs.recentCorrectWithoutHighHint,
                                    inputs.recentTotal, false) then
      Open([RetrySameSkill, RaiseDifficulty],
           Decide(inputs, RaiseDifficulty, MasteryPromotion, OnSkill(inputs.skill, Min(3, d + 1)), Min(3, d + 1), []),
           map[RetrySameSkill := PracticeAdapted, RaiseDifficulty := PracticeAdapted])
    else
      Open([RetrySameSkill],
           Decide(inputs, RetrySameSkill, ContinuePractice, onSkill, d, []),
           map[RetrySameSkill := PracticeAdapted])
  }

  datatype PolicyResult = PolicyResult(decision: AgentDecision, nextState: SessionState)

  /** `decide_next_action`: the fallback with its own next state. */
  function DecideNextAction(inputs: PolicyInput): PolicyResult {
    FloorIsExecutable(inputs);
    var c := DerivePolicyConstraints(inputs);
    PolicyResult(c.preferredFallback, c.nextStates[c.preferredFallback.action])
  }

  // ---- what callers rely on

  /** A decision boundary that can be executed from a session whose answer was just evaluated. */
  ghost predicate Executable(c: PolicyConstraints) {
    && NoRepeats(c.allowedActions)
    && c.preferredFallback.action in c.allowedActions
    && (forall a :: a in c.allowedActions <==> a in c.nextStates)
    && (forall a :: a in c.nextStates ==> CanTransition(AnswerEvaluated, c.nextStates[a]))
    && (c.hardAction.Some? ==> c.allowedActions == [c.hardAction.value])
  }

  lemma {:induction false} WithRecalledStatesAre(states: map<BoundedAction, SessionState>, recalled: seq<BoundedAction>)
    requires forall a :: a in recalled ==> Reusable(a)
    ensures forall a :: a in WithRecalledStates(states, recalled) <==> a in states || a in recalled
    ensures forall a :: a in WithRecalledStates(states, recalled) ==>
                          WithRecalledStates(states, recalled)[a]
                          == if a in recalled && Reusable(a) then NextStateByAction(a) else states[a]
  {
    if recalled != [] {
      var init := recalled[..|recalled| - 1];
      WithRecalledStatesAre(states, init);
      assert recalled == init + [recalled[|recalled| - 1]];
    }
  }

  lemma UnrecalledExecutable(inputs: PolicyInput)
    ensures Executable(UnrecalledConstraints(inputs))
  {
  }

  /** The recursion on a conflict of recalled strategies ends after one level. */
  lemma ConflictRecursionEnds(inputs: PolicyInput)
    ensures RecalledActions(WithoutRecall(inputs)) == []
    ensures inputs.minutesRemaining > 2 ==>
              DerivePolicyConstraints(WithoutRecall(inputs)) == UnrecalledConstraints(WithoutRecall(inputs))
  {
  }

  lemma {:induction false} RecalledStatesLegal(states: map<BoundedAction, SessionState>, recalled: seq<BoundedAction>)
    requires forall a :: a in recalled ==> Reusable(a)
    requires forall a :: a in states ==> CanTransition(AnswerEvaluated, states[a])
    ensures var merged := WithRecalledStates(states, recalled);
            forall a :: a in merged ==> CanTransition(AnswerEvaluated, merged[a])
  {
    WithRecalledStatesAre(states, recalled);
  }

  lemma {:induction false} ConflictExecutable(base: PolicyConstraints, recalled: seq<BoundedAction>,
                                              merged: PolicyConstraints)
    requires Executable(base)
    requires forall a :: a in recalled ==> Reusable(a)
    requires merged.hardAction.None? && merged.preferredFallback == base.preferredFallback
    requires merged.allowedActions == FromKeys(base.allowedActions + recalled)
    requires merged.nextStates == WithRecalledStates(base.nextStates, recalled)
    ensures Executable(merged)
  {
    FromKeysAre(base.allowedActions + recalled);
    WithRecalledStatesAre(base.nextStates, recalled);
    RecalledStatesLegal(base.nextStates, recalled);
    forall a
      ensures a in merged.allowedActions <==> a in merged.nextStates
    {
      assert a in base.allowedActions + recalled <==> a in base.allowedActions || a in recalled;
    }
  }

  /** For every input the policy leaves an executable boundary. */
  lemma {:induction false} FloorIsExecutable(inputs: PolicyInput)
    ensures Executable(DerivePolicyConstraints(inputs))
  {
    RecalledActionsAre(inputs);
    var recalled := RecalledActions(inputs);
    if inputs.minutesRemaining <= 2 {
    } else if |recalled| == 1 {
      assert recalled[0] in recalled;
    } else if |recalled| > 1 {
      ConflictRecursionEnds(inputs);
      var base := UnrecalledConstraints(WithoutRecall(inputs));
      UnrecalledExecutable(WithoutRecall(inputs));
      if base.hardAction.None? {
        ConflictExecutable(base, recalled, DerivePolicyConstraints(inputs));
      }
    } else {
      UnrecalledExecutable(inputs);
    }
  }

  /** Difficulty stays on its scale of 1 to 3, moves by at most one step, and moves only in the
      direction the chosen action says; payload and decision name the same difficulty. */
  predicate OnScale(difficulty: int, f: AgentDecision) {
    && 1 <= f.difficulty <= 3
    && (f.action == RaiseDifficulty ==> difficulty <= f.difficulty <= difficulty + 1)
    && (f.action == RaiseDifficulty && difficulty < 3 ==> f.difficulty == difficulty + 1)
    && (f.action == LowerDifficulty ==> difficulty - 1 <= f.difficulty <= difficulty)
    && (f.action == LowerDifficulty && difficulty > 1 ==> f.difficulty == difficulty - 1)
    && (f.action != RaiseDifficulty && f.action != LowerDifficulty ==> f.difficulty == difficulty)
    && (f.payload.OnSkill? ==> f.payload.difficulty == f.difficulty)
  }

  lemma UnrecalledOnScale(inputs: PolicyInput)
    requires 1 <= inputs.difficulty <= 3
    ensures OnScale(inputs.difficulty, UnrecalledConstraints(inputs).preferredFallback)
  {
  }

  lemma {:induction false} DifficultyStaysOnScale(inputs: PolicyInput)
    requires 1 <= inputs.difficulty <= 3
    ensures OnScale(inputs.difficulty, DerivePolicyConstraints(inputs).preferredFallback)
  {
    RecalledActionsAre(inputs);
    UnrecalledOnScale(inputs);
    UnrecalledOnScale(WithoutRecall(inputs));
    if |RecalledActions(inputs)| == 1 {
      assert RecalledActions(inputs)[0] in RecalledActions(inputs);
    } else if |RecalledActions(inputs)| > 1 {
      ConflictRecursionEnds(inputs);
    }
  }

  /** Which guard forces the action, for every input: the time budget first, then a single
      recalled strategy, then an unmastered prerequisite; nothing else forces one. */
  lemma {:induction false} HardActionIs(inputs: PolicyInput)
    ensures DerivePolicyConstraints(inputs).hardAction ==
            if inputs.minutesRemaining <= 2 then Some(EndWithReview)
            else if |RecalledActions(inputs)| == 1 then Some(RecalledActions(inputs)[0])
            else if inputs.requiresUnmasteredPrerequisite then Some(SwitchToPrerequisite)
            else None
  {
  }

  lemma {:induction false} ConflictWidens(inputs: PolicyInput)
    requires |RecalledActions(inputs)| > 1
    ensures forall a :: a in RecalledActions(inputs) ==> Reusable(a)
    ensures var base := DerivePolicyConstraints(WithoutRecall(inputs));
            DerivePolicyConstraints(inputs)
            == if base.hardAction.Some? then base else Widened(base, RecalledActions(inputs))
  {
    RecalledActionsAre(inputs);
    ConflictRecursionEnds(inputs);
  }

  /** Conflicting recalled strategies widen the choice and leave the deterministic answer alone. */
  lemma {:induction false} ConflictOnlyWidens(inputs: PolicyInput)
    requires |RecalledActions(inputs)| > 1
    ensures DerivePolicyConstraints(inputs).preferredFallback
         == DerivePolicyConstraints(WithoutRecall(inputs)).preferredFallback
    ensures DerivePolicyConstraints(inputs).hardAction.None? ==>
              forall a :: a in DerivePolicyConstraints(inputs).allowedActions <==>
                          a in DerivePolicyConstraints(WithoutRecall(inputs)).allowedActions
                          || a in RecalledActions(inputs)
  {
    ConflictWidens(inputs);
    FromKeysAre(DerivePolicyConstraints(WithoutRecall(inputs)).allowedActions + RecalledActions(inputs));
  }

  /** Derived next states are those of the table; only repeating a skill is overridden, and only
      when no error points at it. */
  predicate FollowsTable(inputs: PolicyInput, states: map<BoundedAction, SessionState>) {
    forall a :: a in states ==>
      && Listed(a)
      && states[a] == if a == RetrySameSkill && inputs.consecutiveErrors < 2 && inputs.activeMisconception.None?
                      then PracticeAdapted
                      else if a == ShowWorkedExample then WorkedExampleActive
                      else if a == ShowMicroLesson then MicroLessonActive
                      else if a == RetrySameSkill then QuestionActive
                      else if a == EndWithReview then SessionSummary
                      else PracticeAdapted
  }

  lemma UnrecalledFollowsTable(inputs: PolicyInput)
    ensures FollowsTable(inputs, UnrecalledConstraints(inputs).nextStates)
  {
  }

  lemma {:induction false} WidenedFollowsTable(inputs: PolicyInput, states: map<BoundedAction, SessionState>,
                                               recalled: seq<BoundedAction>)
    requires FollowsTable(inputs, states) && forall a :: a in recalled ==> Reusable(a)
    ensures FollowsTable(inputs, WithRecalledStates(states, recalled))
  {
    WithRecalledStatesAre(states, recalled);
  }

  lemma {:induction false} NextStatesFollowTable(inputs: PolicyInput)
    ensures FollowsTable(inputs, DerivePolicyConstraints(inputs).nextStates)
  {
    RecalledActionsAre(inputs);
    var recalled := RecalledActions(inputs);
    if inputs.minutesRemaining > 2 {
      if |recalled| == 1 {
        assert recalled[0] in recalled;
      } else if |recalled| > 1 {
        var base := UnrecalledConstraints(WithoutRecall(inputs));
        UnrecalledFollowsTable(WithoutRecall(inputs));
        assert FollowsTable(inputs, base.nextStates);
        ConflictRecursionEnds(inputs);
        ConflictWidens(inputs);
        WidenedFollowsTable(inputs, base.nextStates, recalled);
      } else {
        UnrecalledFollowsTable(inputs);
      }
    }
  }

  /** The reason says which rule chose the action, and episodes are cited only for a recall. */
  predicate Explained(f: AgentDecision) {
    && (f.episodeIds != [] ==> f.reason == RecalledSuccessfulEpisode)
    && (f.reason == RecalledSuccessfulEpisode ==> Reusable(f.action))
    && (f.action == EndWithReview <==> f.reason == TimeBudgetExhausted)
    && (f.action == SwitchToPrerequisite <==> f.reason == PrerequisiteBlocker)
    && (f.action == LowerDifficulty <==> f.reason == SupportNeeded)
    && (f.action == RaiseDifficulty <==> f.reason == MasteryPromotion)
    && (f.reason == RepeatedMisconception ==> f.action == ShowWorkedExample)
    && (f.reason == RepeatedSkillErrors ==> f.action == ShowMicroLesson)
    && (f.action == RetrySameSkill <==> f.reason == MisconceptionObserved || f.reason == ContinuePractice)
  }

  lemma UnrecalledExplained(inputs: PolicyInput)
    ensures Explained(UnrecalledConstraints(inputs).preferredFallback)
    ensures UnrecalledConstraints(inputs).preferredFallback.episodeIds == []
  {
  }

  /** Without a time limit or a single recalled strategy the fallback is the unrecalled one. */
  lemma {:induction false} FallbackSource(inputs: PolicyInput)
    requires inputs.minutesRemaining > 2 && |RecalledActions(inputs)| != 1
    ensures DerivePolicyConstraints(inputs).preferredFallback
         == UnrecalledConstraints(if RecalledActions(inputs) == [] then inputs
                                  else WithoutRecall(inputs)).preferredFallback
  {
    if |RecalledActions(inputs)| > 1 {
      ConflictRecursionEnds(inputs);
      ConflictWidens(inputs);
    }
  }

  lemma {:induction false} FallbackIsExplained(inputs: PolicyInput)
    ensures Explained(DerivePolicyConstraints(inputs).preferredFallback)
  {
    RecalledActionsAre(inputs);
    var recalled := RecalledActions(inputs);
    if inputs.minutesRemaining > 2 {
      if |recalled| == 1 {
        assert recalled[0] in recalled;
      } else {
        FallbackSource(inputs);
        UnrecalledExplained(if recalled == [] then inputs else WithoutRecall(inputs));
      }
    }
  }

  lemma {:induction false} DecisionIsLegal(inputs: PolicyInput)
    ensures CanTransition(AnswerEvaluated, DecideNextAction(inputs).nextState)
    ensures DecideNextAction(inputs).decision.action in DerivePolicyConstraints(inputs).allowedActions
  {
    FloorIsExecutable(inputs);
  }

  // ---- the rules in plain terms

  predicate Recalls(inputs: PolicyInput, a: BoundedAction) {
    Some(a) in inputs.recalledInterventions
  }

  lemma TwoReusableActions(s: seq<BoundedAction>)
    requires NoRepeats(s) && forall a :: a in s ==> Reusable(a)
    ensures |s| == (if ShowWorkedExample in s then 1 else 0) + (if ShowMicroLesson in s then 1 else 0)
    ensures |s| == 1 ==> s[0] in s
  {
    assert forall i :: 0 <= i < |s| ==> Reusable(s[i]);
    assert |s| > 2 ==> s[0] != s[1] && s[1] != s[2] && s[0] != s[2];
    assert |s| == 2 ==> s == [s[0], s[1]];
    assert |s| == 1 ==> s == [s[0]];
  }

  lemma {:induction false} RecalledCount(inputs: PolicyInput)
    ensures var worked, micro := Recalls(inputs, ShowWorkedExample), Recalls(inputs, ShowMicroLesson);
            var recalled := RecalledActions(inputs);
            && (|recalled| > 1 <==> worked && micro)
            && (worked && micro ==> forall a :: a in recalled <==> a == ShowWorkedExample || a == ShowMicroLesson)
            && (worked && !micro ==> recalled == [ShowWorkedExample])
            && (micro && !worked ==> recalled == [ShowMicroLesson])
            && (!worked && !micro ==>
                recalled == if inputs.recalledSuccessfulEpisode then [ShowWorkedExample] else [])
  {
    var reusable := ReusableActions(inputs.recalledInterventions);
    ReusableActionsAre(inputs.recalledInterventions);
    assert Reusable(ShowWorkedExample) && Reusable(ShowMicroLesson);
    TwoReusableActions(reusable);
    if |reusable| > 0 {
      assert reusable[0] in reusable;
    }
  }

  /** The strategy that is recalled as the only one; without a name it is the worked example. */
  function OnlyRecalled(inputs: PolicyInput): Option<BoundedAction> {
    var worked, micro := Recalls(inputs, ShowWorkedExample), Recalls(inputs, ShowMicroLesson);
    if worked && !micro then Some(ShowWorkedExample)
    else if micro && !worked then Some(ShowMicroLesson)
    else if !worked && inputs.recalledSuccessfulEpisode then Some(ShowWorkedExample)
    else None
  }

  /** Forced actions, for every input: two minutes or less end the session, a strategy that is
      recalled as the only one is taken, an unmastered prerequisite comes next, and nothing else
      forces an action; with it the whole decision. */
  lemma {:induction false} ForcedActionIs(inputs: PolicyInput)
    ensures var c, only := DerivePolicyConstraints(inputs), OnlyRecalled(inputs);
            var ids := if only.Some? && only.value in inputs.recalledIdsByIntervention
                       then inputs.recalledIdsByIntervention[only.value] else inputs.recalledEpisodeIds;
            if inputs.minutesRemaining <= 2 then
              && c.hardAction == Some(EndWithReview)
              && c.preferredFallback == AgentDecision(EndWithReview, TimeReview, TimeBudgetExhausted, inputs.skill,
                                                      inputs.difficulty, [])
            else if only.Some? then
              && c.hardAction == only
              && c.preferredFallback
                 == AgentDecision(only.value,
                                  OnMisconception(inputs.skill, inputs.subskill, inputs.activeMisconception),
                                  RecalledSuccessfulEpisode, inputs.skill, inputs.difficulty, ids)
            else if inputs.requiresUnmasteredPrerequisite then
              && c.hardAction == Some(SwitchToPrerequisite)
              && c.preferredFallback == AgentDecision(SwitchToPrerequisite, OnSkill(inputs.skill, inputs.difficulty),
                                                      PrerequisiteBlocker, inputs.skill, inputs.difficulty, [])
            else c.hardAction == None
  {
    RecalledCount(inputs);
    HardActionIs(inputs);
    if inputs.minutesRemaining > 2 && OnlyRecalled(inputs).None? {
      FallbackSource(inputs);
    }
  }

  predicate Named(inputs: PolicyInput) {
    inputs.activeMisconception.Some? && inputs.activeMisconception.value != ""
  }

  /** Two errors in a row, or two observations of the misconception at hand. */
  predicate Repeated(inputs: PolicyInput) {
    inputs.consecutiveErrors >= 2 || (Named(inputs) && inputs.misconceptionObservationCount >= 2)
  }

  predicate Supported(inputs: PolicyInput) {
    && !Repeated(inputs) && inputs.activeMisconception.None?
    && (inputs.repeatedMisconception || (inputs.mastery < 0.45 && inputs.confidence >= 0.40))
  }

  predicate Promoted(inputs: PolicyInput) {
    && !Repeated(inputs) && inputs.activeMisconception.None? && !inputs.repeatedMisconception
    && inputs.mastery >= 0.72 && inputs.confidence >= 0.55 && inputs.correctStreak >= 2
    && inputs.recentTotal >= 3 && inputs.recentCorrectWithoutHighHint >= 2
  }

  /** Where nothing forces an action, with or without conflicting recalled strategies, this is what
      the deterministic policy does. */
  predicate Follows(inputs: PolicyInput, f: AgentDecision) {
    && (f.action == RaiseDifficulty <==> Promoted(inputs))
    && (f.action == LowerDifficulty <==> Supported(inputs) && !inputs.repeatedMisconception)
    && (f.action == ShowWorkedExample <==>
        (Repeated(inputs) && Named(inputs)) || (Supported(inputs) && inputs.repeatedMisconception))
    && (f.action == ShowMicroLesson <==> Repeated(inputs) && !Named(inputs))
    && (f.action == RetrySameSkill <==> !Repeated(inputs) && !Supported(inputs) && !Promoted(inputs))
    && (f.reason == MisconceptionObserved <==> !Repeated(inputs) && inputs.activeMisconception.Some?)
    && f.difficulty == (if Promoted(inputs) then (if inputs.difficulty >= 3 then 3 else inputs.difficulty + 1)
                        else if Supported(inputs) && !inputs.repeatedMisconception then
                          (if inputs.difficulty <= 1 then 1 else inputs.difficulty - 1)
                        else inputs.difficulty)
    && f.payload == (if Repeated(inputs) && Named(inputs)
                     then OnMisconception(inputs.skill, inputs.subskill, inputs.activeMisconception)
                     else OnSkill(inputs.skill, f.difficulty))
    && f.targetSkill == inputs.skill && f.episodeIds == []
  }

  /** The actions that are open next to it. */
  predicate Offers(inputs: PolicyInput, conflict: bool, allowed: seq<BoundedAction>) {
    && (RetrySameSkill in allowed <==> !Supported(inputs))
    && (ShowWorkedExample in allowed <==> Repeated(inputs) || Supported(inputs) || conflict)
    && (ShowMicroLesson in allowed <==> Repeated(inputs) || Supported(inputs) || conflict)
    && (LowerDifficulty in allowed <==> Supported(inputs))
    && (RaiseDifficulty in allowed <==> Promoted(inputs))
    && (forall a :: a in allowed ==> Listed(a) && a != SwitchToPrerequisite && a != EndWithReview)
  }

  lemma UnrecalledFollows(inputs: PolicyInput)
    requires !inputs.requiresUnmasteredPrerequisite
    ensures Follows(inputs, UnrecalledConstraints(inputs).preferredFallback)
  {
  }

  lemma UnrecalledOffers(inputs: PolicyInput)
    requires !inputs.requiresUnmasteredPrerequisite
    ensures Offers(inputs, false, UnrecalledConstraints(inputs).allowedActions)
  {
  }

  lemma RecallDoesNotMatter(inputs: PolicyInput, f: AgentDecision, conflict: bool, allowed: seq<BoundedAction>)
    ensures Follows(WithoutRecall(inputs), f) <==> Follows(inputs, f)
    ensures Offers(WithoutRecall(inputs), conflict, allowed) <==> Offers(inputs, conflict, allowed)
  {
  }

  lemma OfferWidens(inputs: PolicyInput, base: seq<BoundedAction>, allowed: seq<BoundedAction>)
    requires Offers(inputs, false, base)
    requires forall a :: a in allowed <==> a in base || a == ShowWorkedExample || a == ShowMicroLesson
    ensures Offers(inputs, true, allowed)
  {
  }

  lemma {:induction false} OpenChoiceIs(inputs: PolicyInput)
    requires DerivePolicyConstraints(inputs).hardAction.None?
    ensures Follows(inputs, DerivePolicyConstraints(inputs).preferredFallback)
    ensures Offers(inputs, Recalls(inputs, ShowWorkedExample) && Recalls(inputs, ShowMicroLesson),
                   DerivePolicyConstraints(inputs).allowedActions)
  {
    RecalledCount(inputs);
    HardActionIs(inputs);
    FallbackSource(inputs);
    if RecalledActions(inputs) == [] {
      UnrecalledFollows(inputs);
      UnrecalledOffers(inputs);
    } else {
      var base := UnrecalledConstraints(WithoutRecall(inputs));
      ConflictRecursionEnds(inputs);
      ConflictOnlyWidens(inputs);
      UnrecalledFollows(WithoutRecall(inputs));
      UnrecalledOffers(WithoutRecall(inputs));
      RecallDoesNotMatter(inputs, base.preferredFallback, false, base.allowedActions);
      OfferWidens(inputs, base.allowedActions, DerivePolicyConstraints(inputs).allowedActions);
    }
  }

  /** More mastery, confidence or right answers, and fewer errors, never take a promotion away. */
  lemma {:induction false} PromotionIsMonotone(inputs: PolicyInput, mastery: real, confidence: real, streak: int,
                                               right: int, total: int, errors: int)
    requires mastery >= inputs.mastery && confidence >= inputs.confidence && streak >= inputs.correctStreak
    requires right >= inputs.recentCorrectWithoutHighHint && total >= inputs.recentTotal
    requires errors <= inputs.consecutiveErrors
    ensures var better := inputs.(mastery := mastery, confidence := confidence, correctStreak := streak,
                                  recentCorrectWithoutHighHint := right, recentTotal := total,
                                  consecutiveErrors := errors);
            DerivePolicyConstraints(inputs).preferredFallback.action == RaiseDifficulty ==>
              DerivePolicyConstraints(better).preferredFallback == DerivePolicyConstraints(inputs).preferredFallback
  {
    var better := inputs.(mastery := mastery, confidence := confidence, correctStreak := streak,
                          recentCorrectWithoutHighHint := right, recentTotal := total,
                          consecutiveErrors := errors);
    if DerivePolicyConstraints(inputs).preferredFallback.action == RaiseDifficulty {
      ForcedActionIs(inputs);
      ForcedActionIs(better);
      OpenChoiceIs(inputs);
      OpenChoiceIs(better);
      FallbackIsExplained(inputs);
      FallbackIsExplained(better);
    }
  }
}
