/** `evaluate_answer` of app/agent/orchestrator.py: record the answer, decide, log the decision
    and close with a session transition. */
module Orchestrator {
  import opened Common
  import opened Sessions
  import opened Learner
  import opened Policy
  import opened LearnerStoreModel

  type CodePoint = x: int | 0 <= x < 0x110000

  /** A Python string; an escape of half a surrogate pair leaves a surrogate in it. */
  type Text = seq<CodePoint>

  datatype Json =
    | JsonNull
    | JsonBool(value: bool)
    | JsonNumber(isZero: bool)
    | JsonString(text: Text)
    | JsonArray(elements: seq<Json>)
    | JsonObject(members: map<Text, Json>)

  /** What the optional model answers. `Unavailable` is an exception that `_decide_with_llm`
      catches, or an empty content; `Uncaught` is any other exception of the call or of reading
      its text. */
  datatype ModelReply = NoModel | Unavailable | Uncaught | NotJson | Parsed(json: Json)

  /** A reason of the model: the text it gave, the text of the code for a missing or empty one, or
      Python's rendering of a value that is no string, in which every such character is escaped. */
  datatype Reason = Given(text: Text) | Default | Rendered(json: Json)

  datatype ModelDecision = ModelDecision(action: BoundedAction, reasonCode: Reason, reasonText: Reason)

  /** `model` holds the decision of the model, if it made one; the texts of the policy are constants. */
  datatype AgentEvent = AgentEvent(sourceEventId: string, stateAfter: SessionState, action: BoundedAction,
                                   model: Option<ModelDecision>)

  /** `InvalidEvidence` is the validation error of `EvidenceWeight` on the item or the hint level;
      `BrokenReply` is an exception that reading or storing the reply of the model raises. */
  datatype EvaluationError = InvalidEvidence | BrokenReply | Store(error: StoreError)

  datatype Choice = Choice(action: BoundedAction, nextState: SessionState, model: Option<ModelDecision>)

  function NextStateFor(a: BoundedAction): SessionState {
    match a
    case ShowWorkedExample => WorkedExampleActive
    case ShowMicroLesson => MicroLessonActive
    case ScheduleReview => SessionSummary
    case EndWithReview => SessionSummary
    case EndSession => SessionSummary
    case _ => QuestionActive
  }

  function NameOf(a: BoundedAction): string {
    match a
    case AskQuestion => "ASK_QUESTION"
    case GiveHint1 => "GIVE_HINT_1"
    case GiveHint2 => "GIVE_HINT_2"
    case GiveHint3 => "GIVE_HINT_3"
    case ShowMicroLesson => "SHOW_MICRO_LESSON"
    case ShowWorkedExample => "SHOW_WORKED_EXAMPLE"
    case RetrySameSkill => "RETRY_SAME_SKILL"
    case LowerDifficulty => "LOWER_DIFFICULTY"
    case RaiseDifficulty => "RAISE_DIFFICULTY"
    case SwitchToPrerequisite => "SWITCH_TO_PREREQUISITE"
    case ScheduleReview => "SCHEDULE_REVIEW"
    case EndWithReview => "END_WITH_REVIEW"
    case EndSession => "END_SESSION"
  }

  const ACTIONS: seq<BoundedAction> :=
    [AskQuestion, GiveHint1, GiveHint2, GiveHint3, ShowMicroLesson, ShowWorkedExample, RetrySameSkill,
     LowerDifficulty, RaiseDifficulty, SwitchToPrerequisite, ScheduleReview, EndWithReview, EndSession]

  function Ascii(s: string): (t: Text)
    ensures |t| == |s| && forall i :: 0 <= i < |s| ==> t[i] == s[i] as int
  {
    seq(|s|, i requires 0 <= i < |s| => s[i] as int)
  }

  lemma AsciiInjective(s: string, t: string)
    requires Ascii(s) == Ascii(t)
    ensures s == t
  {
    forall i | 0 <= i < |s|
      ensures s[i] == t[i]
    {
      assert Ascii(s)[i] == Ascii(t)[i];
    }
  }

  lemma NamesAreDistinct(a: BoundedAction, b: BoundedAction)
    requires NameOf(a) == NameOf(b)
    ensures a == b
  {
  }

  function ActionNamed(name: Text): (r: Option<BoundedAction>)
    ensures r.Some? ==> Ascii(NameOf(r.value)) == name
    ensures r.None? ==> forall a :: Ascii(NameOf(a)) != name
  {
    FirstNamed(name, ACTIONS)
  }

  function FirstNamed(name: Text, actions: seq<BoundedAction>): (r: Option<BoundedAction>)
    ensures r.Some? ==> Ascii(NameOf(r.value)) == name
    ensures r.None? ==> forall a :: a in actions ==> Ascii(NameOf(a)) != name
  {
    if actions == [] then None
    else if Ascii(NameOf(actions[0])) == name then Some(actions[0])
    else FirstNamed(name, actions[1..])
  }

  // ---- reading the reply of the model

  const ACTION := Ascii("action")
  const REASON_CODE := Ascii("reason_code")
  const REASON_TEXT := Ascii("reason_text")

  /** Python's truth value. */
  predicate Falsy(json: Json) {
    match json
    case JsonNull => true
    case JsonBool(b) => !b
    case JsonNumber(isZero) => isZero
    case JsonString(text) => text == []
    case JsonArray(elements) => elements == []
    case JsonObject(members) => members == map[]
  }

  /** `str(parsed.get(key) or default)`. */
  function ReasonOf(members: map<Text, Json>, key: Text): Reason {
    if key !in members || Falsy(members[key]) then Default
    else if members[key].JsonString? then Given(members[key].text)
    else Rendered(members[key])
  }

  /** A text with a NUL is no PostgreSQL text, and one with a surrogate has no UTF-8 encoding. */
  predicate Storable(reason: Reason) {
    reason.Given? ==> forall c :: c in reason.text ==> c != 0 && !(0xD800 <= c <= 0xDFFF)
  }

  predicate StorableDecision(d: ModelDecision) {
    Storable(d.reasonCode) && Storable(d.reasonText)
  }

  /** The reply is an object whose action is the name of this bounded action. */
  predicate Names(reply: ModelReply, a: BoundedAction) {
    && reply.Parsed? && reply.json.JsonObject? && ACTION in reply.json.members
    && reply.json.members[ACTION] == JsonString(Ascii(NameOf(a)))
  }

  /** The replies that cannot be read: an exception of the call that the code does not catch, JSON
      that is no object (which has no `get`), and an action that is an array or an object (which a
      set cannot look up). */
  predicate Unreadable(reply: ModelReply) {
    || reply.Uncaught?
    || (reply.Parsed? && !reply.json.JsonObject?)
    || (reply.Parsed? && reply.json.JsonObject? && ACTION in reply.json.members
        && var action := reply.json.members[ACTION]; action.JsonArray? || action.JsonObject?)
  }

  /** The replies that the code does not survive: those that it cannot read, and those that name a
      bounded action with a reason, of either kind, that is a string no table can hold. */
  predicate Breaks(reply: ModelReply) {
    || Unreadable(reply)
    || exists a :: Names(reply, a) && !(Storable(ReasonOf(reply.json.members, REASON_CODE))
                                        && Storable(ReasonOf(reply.json.members, REASON_TEXT)))
  }

  /** The decision of the model, None to leave it to the policy. */
  function DecisionIn(reply: ModelReply): Option<ModelDecision> {
    if reply.Parsed? && reply.json.JsonObject? && ACTION in reply.json.members
       && reply.json.members[ACTION].JsonString?
    then
      var members := reply.json.members;
      match ActionNamed(members[ACTION].text)
      case Some(action) =>
        Some(ModelDecision(action, ReasonOf(members, REASON_CODE), ReasonOf(members, REASON_TEXT)))
      case None => None
    else None
  }

  /** The model decides exactly when its reply names a bounded action, and then for that one. */
  lemma DecisionIsNamed(reply: ModelReply, a: BoundedAction)
    ensures Names(reply, a) <==> DecisionIn(reply).Some? && DecisionIn(reply).value.action == a
  {
    if DecisionIn(reply).Some? && Names(reply, a) {
      AsciiInjective(NameOf(DecisionIn(reply).value.action), NameOf(a));
      NamesAreDistinct(DecisionIn(reply).value.action, a);
    }
  }

  /** A reply breaks exactly if it cannot be read or its decision cannot be stored. */
  lemma BreaksIff(reply: ModelReply)
    ensures Breaks(reply) <==>
              Unreadable(reply) || (DecisionIn(reply).Some? && !StorableDecision(DecisionIn(reply).value))
  {
    if DecisionIn(reply).Some? {
      DecisionIsNamed(reply, DecisionIn(reply).value.action);
    }
    if a :| Names(reply, a) {
      DecisionIsNamed(reply, a);
    }
  }

  /** `_decide_with_llm`: an error exactly on the replies that cannot be read. */
  method DecideWithModel(reply: ModelReply) returns (r: Result<Option<ModelDecision>, EvaluationError>)
    ensures if Unreadable(reply) then r == Err(BrokenReply) else r == Ok(DecisionIn(reply))
  {
    if reply.NoModel? || reply.Unavailable? || reply.NotJson? {
      return Ok(None);
    }
    if reply.Uncaught? || !reply.json.JsonObject? {
      return Err(BrokenReply);
    }
    var members := reply.json.members;
    if ACTION !in members {
      return Ok(None);
    }
    match members[ACTION] {
      case JsonString(name) =>
        var action := ActionNamed(name);
        if action.None? {
          return Ok(None);
        }
        r := Ok(Some(ModelDecision(action.value, ReasonOf(members, REASON_CODE), ReasonOf(members, REASON_TEXT))));
      case JsonArray(_) => r := Err(BrokenReply);
      case JsonObject(_) => r := Err(BrokenReply);
      case _ => r := Ok(None);
    }
  }

  function Retry(reason: Json): ModelReply {
    Parsed(JsonObject(map[ACTION := JsonString(Ascii("RETRY_SAME_SKILL")), REASON_TEXT := reason]))
  }

  /** Replies that a working model may send: arrays raise, an unknown action does not. */
  lemma ArraysBreak()
    ensures Breaks(Parsed(JsonArray([])))
    ensures Breaks(Parsed(JsonObject(map[ACTION := JsonArray([])])))
    ensures !Breaks(Parsed(JsonObject(map[ACTION := JsonString(Ascii("FLY"))])))
  {
    UnknownAction();
  }

  /** A NUL or half a surrogate pair in the reason for a bounded action raises as well. */
  lemma ReasonBreaks(text: Text, c: CodePoint)
    requires c in text && (c == 0 || 0xD800 <= c <= 0xDFFF)
    ensures Breaks(Retry(JsonString(text)))
  {
    KeysDiffer();
    assert Names(Retry(JsonString(text)), RetrySameSkill);
    assert ReasonOf(Retry(JsonString(text)).json.members, REASON_TEXT) == Given(text);
  }

  /** In a reason that is no string it does not. */
  lemma RenderedReasonIsStored(reason: Json)
    requires !reason.JsonString?
    ensures !Breaks(Retry(reason))
  {
    KeysDiffer();
    assert ReasonOf(Retry(reason).json.members, REASON_CODE) == Default;
  }

  lemma KeysDiffer()
    ensures ACTION != REASON_CODE && ACTION != REASON_TEXT && REASON_CODE != REASON_TEXT
  {
    assert |ACTION| == 6 && |REASON_CODE| == 11 && |REASON_TEXT| == 11;
    assert REASON_CODE[7] == 'c' as int && REASON_TEXT[7] == 't' as int;
  }

  lemma UnknownAction()
    ensures forall a :: Ascii("FLY") != Ascii(NameOf(a))
  {
    forall a
      ensures Ascii("FLY") != Ascii(NameOf(a))
    {
      assert |NameOf(a)| > 3;
    }
  }

  /** The choice for these inputs after this reply: the model's action, or else the policy's. */
  function Choose(inputs: PolicyInput, reply: ModelReply): Choice {
    var decision := DecisionIn(reply);
    if decision.Some? then Choice(decision.value.action, NextStateFor(decision.value.action), decision)
    else Choice(DecideNextAction(inputs).decision.action, DecideNextAction(inputs).nextState, None)
  }

  /** Whoever decides, the next state is legal from ANSWER_EVALUATED; a reply that names a bounded
      action decides, and without one the decision is among those the policy allows. */
  lemma {:induction false} ChoiceIsLegal(inputs: PolicyInput, reply: ModelReply)
    ensures CanTransition(AnswerEvaluated, Choose(inputs, reply).nextState)
    ensures forall a :: Names(reply, a) ==> Choose(inputs, reply).action == a
    ensures (forall a :: !Names(reply, a)) ==>
              Choose(inputs, reply).action in DerivePolicyConstraints(inputs).allowedActions
  {
    DecisionIsLegal(inputs);
    forall a
      ensures Names(reply, a) <==> DecisionIn(reply).Some? && DecisionIn(reply).value.action == a
    {
      DecisionIsNamed(reply, a);
    }
    if DecisionIn(reply).Some? {
      assert Names(reply, DecisionIn(reply).value.action);
    }
  }

  function EventOf(sourceEventId: string, choice: Choice): AgentEvent {
    AgentEvent(sourceEventId, choice.nextState, choice.action, choice.model)
  }

  /** An item of the content bank. */
  datatype ContentItem = ContentItem(
    contentId: string, version: int, skill: string, subskill: string, difficulty: int,
    answerChoiceId: string, misconceptionMap: map<string, string>)

  /** What earlier practice recalls for this error: episode ids, and the same by intervention. */
  datatype Recall = Recall(ids: seq<string>, byIntervention: map<BoundedAction, seq<string>>,
                           interventions: seq<Option<BoundedAction>>)

  class SessionOrchestrator {
    const store: LearnerStore
    var agentEvents: seq<AgentEvent>

    constructor (store: LearnerStore)
      ensures this.store == store && agentEvents == []
    {
      this.store, agentEvents := store, [];
    }

    /** Every accepted answer was weighed by `EvidenceWeight`. */
    ghost predicate Valid()
      reads store`accepted, store`events, store`attempts, store`skillStates, store`evidence
    {
      store.Valid() && forall a :: a in store.accepted ==> a.weight >= 0.0
    }

    function EvaluationOf(studentId: string, sessionId: string, eventId: string, now: string, item: ContentItem,
                          selectedChoiceId: string, hintLevel: int): Evaluation {
      var correct := selectedChoiceId == item.answerChoiceId;
      var weight := EvidenceWeight(item.difficulty, hintLevel, false, false, 1.0).Weight();
      var payload :=
        Payload(Some(item.contentId), Some(item.version), Some(selectedChoiceId), Some(correct), Some(hintLevel));
      Evaluation(studentId, sessionId, LearningEvent(eventId, true, studentId, sessionId, payload, now, true),
                 item.contentId, item.version, item.skill, selectedChoiceId, correct, hintLevel, weight, true,
                 if !correct && selectedChoiceId in item.misconceptionMap
                 then Some(item.misconceptionMap[selectedChoiceId]) else None,
                 AnswerEvaluated)
    }

    function InputsFor(a: Evaluation, item: ContentItem, row: Option<SkillRow>, observations: nat, minutes: int,
                       recall: Recall): PolicyInput
    {
      PolicyInput(item.skill, Some(item.subskill), item.difficulty,
                  if row.Some? then row.value.mastery else 0.5,
                  if row.Some? then row.value.confidence else 0.0,
                  if row.Some? then row.value.incorrectStreak else 0,
                  if row.Some? then row.value.correctStreak else 0,
                  false, a.misconception, observations, false, minutes,
                  false, recall.ids, recall.interventions, recall.byIntervention, 0, 0)
    }

    /** The first half: record the answer, then collect what the policy looks at. It changes nothing
        when it fails. */
    method RecordAnswer(a: Evaluation, item: ContentItem, minutes: int, recall: Recall)
      returns (r: Result<PolicyInput, EvaluationError>)
      requires Valid() && a.weight >= 0.0
      modifies store
      ensures Valid() && agentEvents == old(agentEvents)
      ensures r.Ok? <==> old(store.Admissible(a))
      ensures r.Ok? ==>
                && store.accepted == old(store.accepted) + [AnswerOf(a)]
                && store.sessions == old(store.sessions)[a.sessionId := Session(a.studentId, a.sessionState)]
                && r.value == InputsFor(a, item, RowAfter(a), ObservationsAfter(a), minutes, recall)
      ensures r.Err? ==> r.error.Store? && store.accepted == old(store.accepted)
                         && store.sessions == old(store.sessions)
    {
      MasteryIsDefined(store.accepted, AnswerOf(a));
      var recorded := store.RecordAnswerEvaluation(a);
      if recorded.Err? {
        return Err(Store(recorded.error));
      }
      RowIsStored(store.accepted, AnswerOf(a), store.skillStates);
      var observations := 0;
      if a.misconception.Some? && a.misconception.value != "" {
        var distinctItems;
        observations, distinctItems := store.CountMisconceptionEvidence(a.studentId, a.skill, a.misconception.value);
      }
      r := Ok(InputsFor(a, item, recorded.value.1, observations, minutes, recall));
    }

    /** The stored skill row of the answer, if its skill has one. */
    ghost function RowAfter(a: Evaluation): Option<SkillRow>
      reads store`skillStates
    {
      var key := (a.studentId, a.skill);
      if key in store.skillStates then Some(store.skillStates[key]) else None
    }

    ghost function ObservationsAfter(a: Evaluation): nat
      reads store`evidence
    {
      if a.misconception.Some? && a.misconception.value != ""
      then |Matching(store.evidence, a.studentId, a.skill, a.misconception.value)| else 0
    }

    /** One insert in its own transaction, which the database refuses for the texts it cannot hold. */
    method AppendAgentEvent(e: AgentEvent) returns (ok: bool)
      modifies this`agentEvents
      ensures ok <==> (e.model.Some? ==> StorableDecision(e.model.value))
      ensures agentEvents == if ok then old(agentEvents) + [e] else old(agentEvents)
    {
      ok := e.model.Some? ==> StorableDecision(e.model.value);
      if ok {
        agentEvents := agentEvents + [e];
      }
    }

    /** The second half: ask the model, fall back on the policy, log the decision and close with
        the session transition, which is never illegal. */
    method CloseAnswer(sessionId: string, eventId: string, inputs: PolicyInput, reply: ModelReply)
      returns (r: Result<Choice, EvaluationError>)
      requires Valid()
      requires sessionId in store.sessions && store.sessions[sessionId].state == AnswerEvaluated
      modifies this`agentEvents, store`sessions
      ensures if Breaks(reply) then r == Err(BrokenReply) else r.Ok?
      ensures r.Ok? ==>
                && r.value == Choose(inputs, reply)
                && CanTransition(AnswerEvaluated, r.value.nextState)
                && store.sessions
                   == old(store.sessions)[sessionId := old(store.sessions)[sessionId].(state := r.value.nextState)]
                && agentEvents == old(agentEvents) + [EventOf(eventId, r.value)]
      ensures r.Err? ==> store.sessions == old(store.sessions) && agentEvents == old(agentEvents)
    {
      var decided := DecideWithModel(reply);
      if decided.Err? {
        BreaksIff(reply);
        return Err(decided.error);
      }
      BreaksIff(reply);
      var choice;
      if decided.value.Some? {
        choice := Choice(decided.value.value.action, NextStateFor(decided.value.value.action), decided.value);
      } else {
        var policy := DecideNextAction(inputs);
        choice := Choice(policy.decision.action, policy.nextState, None);
      }
      ChoiceIsLegal(inputs, reply);
      var logged := AppendAgentEvent(EventOf(eventId, choice));
      if !logged {
        return Err(BrokenReply);
      }
      var closed := store.TransitionSession(sessionId, choice.nextState);
      assert closed.Ok?;
      r := Ok(choice);
    }

    /** Both halves, for an answer that is already weighed. */
    method RecordAndClose(a: Evaluation, item: ContentItem, minutes: int, recall: Recall, reply: ModelReply)
      returns (r: Result<Choice, EvaluationError>)
      requires Valid() && a.weight >= 0.0 && a.sessionState == AnswerEvaluated
      modifies this, store
      ensures Valid() && r != Err(InvalidEvidence)
      ensures r.Ok? <==> old(store.Admissible(a)) && !Breaks(reply)
      ensures r == Err(BrokenReply) <==> old(store.Admissible(a)) && Breaks(reply)
      ensures r.Ok? ==>
                && store.accepted == old(store.accepted) + [AnswerOf(a)]
                && r.value == Choose(InputsFor(a, item, RowAfter(a), ObservationsAfter(a), minutes, recall), reply)
                && CanTransition(AnswerEvaluated, r.value.nextState)
                && store.sessions == old(store.sessions)[a.sessionId := Session(a.studentId, r.value.nextState)]
                && agentEvents == old(agentEvents) + [EventOf(a.event.eventId, r.value)]
      ensures r == Err(BrokenReply) ==>
                && store.accepted == old(store.accepted) + [AnswerOf(a)]
                && store.sessions == old(store.sessions)[a.sessionId := Session(a.studentId, AnswerEvaluated)]
                && agentEvents == old(agentEvents)
      ensures r.Err? && r.error.Store? ==>
                && store.accepted == old(store.accepted) && store.sessions == old(store.sessions)
                && agentEvents == old(agentEvents)
    {
      var inputs := RecordAnswer(a, item, minutes, recall);
      if inputs.Err? {
        return Err(inputs.error);
      }
      r := CloseAnswer(a.sessionId, a.event.eventId, inputs.value, reply);
    }

    /** An answer that is not recorded changes nothing. An answer that is recorded is decided and
        closed, except after a reply that breaks: then the exception leaves the answer stored, the
        session in ANSWER_EVALUATED and no agent event. */
    method EvaluateAnswer(studentId: string, sessionId: string, eventId: string, now: string, item: ContentItem,
                          selectedChoiceId: string, hintLevel: int, minutes: int, recall: Recall, reply: ModelReply)
      returns (r: Result<Choice, EvaluationError>)
      requires Valid()
      modifies this, store
      ensures Valid()
      ensures r == Err(InvalidEvidence) <==> !EvidenceWeight(item.difficulty, hintLevel, false, false, 1.0).Valid()
      ensures var a := EvaluationOf(studentId, sessionId, eventId, now, item, selectedChoiceId, hintLevel);
              var recorded := r != Err(InvalidEvidence) && old(store.Admissible(a));
              && (r.Ok? <==> recorded && !Breaks(reply))
              && (r == Err(BrokenReply) <==> recorded && Breaks(reply))
              && store.accepted == old(store.accepted) + (if recorded then [AnswerOf(a)] else [])
              && (r.Ok? ==>
                    && r.value == Choose(InputsFor(a, item, RowAfter(a), ObservationsAfter(a), minutes, recall), reply)
                    && CanTransition(AnswerEvaluated, r.value.nextState)
                    && store.sessions == old(store.sessions)[sessionId := Session(studentId, r.value.nextState)]
                    && agentEvents == old(agentEvents) + [EventOf(eventId, r.value)])
              && (r.Err? ==> agentEvents == old(agentEvents))
              && (r == Err(BrokenReply) ==>
                    store.sessions == old(store.sessions)[sessionId := Session(studentId, AnswerEvaluated)])
              && (!recorded ==> store.sessions == old(store.sessions))
    {
      var weight := EvidenceWeight(item.difficulty, hintLevel, false, false, 1.0);
      if !weight.Valid() {
        return Err(InvalidEvidence);
      }
      WeightBounds(weight);
      var a := EvaluationOf(studentId, sessionId, eventId, now, item, selectedChoiceId, hintLevel);
      r := RecordAndClose(a, item, minutes, recall, reply);
    }
  }

  // ---- the whole evaluation in plain terms

  /** The answer that an evaluation records: right exactly for the answer key, weighed by difficulty and
      hints alone, always valid, with the misconception of a wrong choice that the item maps to one. */
  lemma RecordedAnswerIs(o: SessionOrchestrator, studentId: string, sessionId: string, eventId: string, now: string,
                         item: ContentItem, selectedChoiceId: string, hintLevel: int)
    requires 1 <= item.difficulty <= 3 && 0 <= hintLevel <= 3
    ensures var correct := selectedChoiceId == item.answerChoiceId;
            var byDifficulty := if item.difficulty == 1 then 0.75 else if item.difficulty == 2 then 1.0 else 1.25;
            var byHints := if hintLevel == 0 then 1.0 else if hintLevel == 1 then 0.8
                           else if hintLevel == 2 then 0.55 else 0.3;
            AnswerOf(o.EvaluationOf(studentId, sessionId, eventId, now, item, selectedChoiceId, hintLevel))
            == Answer(eventId, studentId, sessionId, item.contentId, item.skill, correct, hintLevel,
                      byDifficulty * byHints, true,
                      if !correct && selectedChoiceId in item.misconceptionMap
                      then Some(item.misconceptionMap[selectedChoiceId]) else None, now)
  {
  }

  /** The next action without a decision of the model: the session ends with two minutes left, a
      strategy that alone is recalled is taken, two errors in a row or two observations of the
      misconception lead to a worked example for it or else to a lesson, low mastery that is known well
      enough makes the next item easier, and all other answers lead to another item of the skill. No
      answer makes the next item harder. */
  lemma {:induction false} PolicyChoiceIs(o: SessionOrchestrator, a: Evaluation, item: ContentItem,
                                          row: Option<SkillRow>, observations: nat, minutes: int, recall: Recall,
                                          reply: ModelReply)
    requires DecisionIn(reply).None?
    ensures var worked, micro := Some(ShowWorkedExample) in recall.interventions,
                                 Some(ShowMicroLesson) in recall.interventions;
            var errors := if row.Some? then row.value.incorrectStreak else 0;
            var named := a.misconception.Some? && a.misconception.value != "";
            Choose(o.InputsFor(a, item, row, observations, minutes, recall), reply).action ==
            if minutes <= 2 then EndWithReview
            else if worked && !micro then ShowWorkedExample
            else if micro && !worked then ShowMicroLesson
            else if errors >= 2 || (named && observations >= 2) then
              (if named then ShowWorkedExample else ShowMicroLesson)
            else if a.misconception.None? && row.Some? && row.value.mastery < 0.45 && row.value.confidence >= 0.40 then
              LowerDifficulty
            else RetrySameSkill
  {
    var inputs := o.InputsFor(a, item, row, observations, minutes, recall);
    ForcedActionIs(inputs);
    if DerivePolicyConstraints(inputs).hardAction.None? {
      OpenChoiceIs(inputs);
    }
  }

  /** So only the model ever raises the difficulty here: the recent answers that the rule for a
      promotion counts are not among what the policy is given. */
  lemma {:induction false} OnlyTheModelPromotes(o: SessionOrchestrator, a: Evaluation, item: ContentItem,
                                                row: Option<SkillRow>, observations: nat, minutes: int, recall: Recall,
                                                reply: ModelReply)
    ensures Choose(o.InputsFor(a, item, row, observations, minutes, recall), reply).action == RaiseDifficulty <==>
              Names(reply, RaiseDifficulty)
  {
    DecisionIsNamed(reply, RaiseDifficulty);
    if DecisionIn(reply).None? {
      PolicyChoiceIs(o, a, item, row, observations, minutes, recall, reply);
    }
  }

  /** The next state of a choice: the model's by its action alone, the policy's with another item of
      the skill as new practice while there is no error to work on. */
  lemma {:induction false} NextStateIs(inputs: PolicyInput, reply: ModelReply)
    ensures var choice := Choose(inputs, reply);
            choice.nextState ==
            match choice.action
            case ShowWorkedExample => WorkedExampleActive
            case ShowMicroLesson => MicroLessonActive
            case EndWithReview => SessionSummary
            case ScheduleReview => SessionSummary
            case EndSession => SessionSummary
            case RetrySameSkill =>
              if choice.model.None? && inputs.consecutiveErrors < 2 && inputs.activeMisconception.None?
              then PracticeAdapted else QuestionActive
            case LowerDifficulty => if choice.model.None? then PracticeAdapted else QuestionActive
            case RaiseDifficulty => if choice.model.None? then PracticeAdapted else QuestionActive
            case SwitchToPrerequisite => if choice.model.None? then PracticeAdapted else QuestionActive
            case _ => QuestionActive
  {
    if DecisionIn(reply).None? {
      FloorIsExecutable(inputs);
      NextStatesFollowTable(inputs);
      assert DerivePolicyConstraints(inputs).preferredFallback.action in DerivePolicyConstraints(inputs).nextStates;
    }
  }

  /** A session left in ANSWER_EVALUATED takes no further answer. */
  lemma NoSecondAnswer(store: LearnerStore, a: Evaluation)
    requires a.sessionId in store.sessions && store.sessions[a.sessionId].state == AnswerEvaluated
    requires a.sessionState == AnswerEvaluated
    ensures !store.Admissible(a)
  {
  }

  lemma {:induction false} RowIsStored(log: seq<Answer>, a: Answer, skillStates: map<(string, string), SkillRow>)
    requires SkillsFollow(log, skillStates) && |log| > 0 && log[|log| - 1] == a
    ensures (a.studentId, a.skill) in skillStates <==> Core(a.skill)
    ensures Core(a.skill) ==> skillStates[(a.studentId, a.skill)] == Projection(log, a.studentId, a.skill)
  {
    assert SkillFollows(log, skillStates, a.studentId, a.skill);
    assert About(log[|log| - 1], a.studentId, a.skill);
  }

  /** With non-negative weights the updated row never divides by zero. */
  lemma {:induction false} MasteryIsDefined(log: seq<Answer>, a: Answer)
    requires forall x :: x in log ==> x.weight >= 0.0
    requires a.weight >= 0.0
    ensures var row := Projection(log + [a], a.studentId, a.skill); row.alpha + row.beta != 0.0
  {
    ProjectionTotals(log + [a], a.studentId, a.skill);
    TotalNonNegative(RightWeight(a.studentId, a.skill), log + [a]);
    TotalNonNegative(WrongWeight(a.studentId, a.skill), log + [a]);
  }
}
