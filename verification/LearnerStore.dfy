/** `LearnerStore` of app/infrastructure/learner_store.py: one transaction per call that appends
    the event and updates the projections, and rolls back on every failure. */
module LearnerStoreModel {
  import opened Common
  import opened Ordering
  import opened Sessions
  import opened Learner

  /** The part of a payload that the store compares with its arguments; None is an absent key. */
  datatype Payload = Payload(
    contentId: Option<string>, version: Option<int>, selectedChoiceId: Option<string>,
    correct: Option<bool>, hintLevel: Option<int>)

  /** `hashMatches` says whether the stored integrity hash is the hash of type and payload. */
  datatype LearningEvent = LearningEvent(
    eventId: string, answerEvaluated: bool, studentId: string, sessionId: string,
    payload: Payload, occurredAt: string, hashMatches: bool)

  /** The keyword arguments of `record_answer_evaluation` that reach the tables. */
  datatype Evaluation = Evaluation(
    studentId: string, sessionId: string, event: LearningEvent, contentId: string, contentVersion: int,
    skill: string, selectedChoiceId: string, correct: bool, hintLevel: int, weight: real, valid: bool,
    misconception: Option<string>, sessionState: SessionState)

  datatype StoreError =
    | WrongEventType | ArgumentMismatch | PayloadMismatch | DuplicateEventId | UnknownSession
    | NotSessionOwner | IllegalTransition | InvalidIntegrityHash | MasteryUndefined

  datatype Attempt = Attempt(
    eventId: string, studentId: string, sessionId: string, contentId: string, correct: bool,
    hintLevel: int, weight: real, valid: bool, occurredAt: string)

  datatype Session = Session(studentId: string, state: SessionState)

  predicate Agrees<T(==)>(stored: Option<T>, argument: T) {
    stored.Some? ==> stored.value == argument
  }

  predicate PayloadAgrees(a: Evaluation) {
    && Agrees(a.event.payload.contentId, a.contentId)
    && Agrees(a.event.payload.version, a.contentVersion)
    && Agrees(a.event.payload.selectedChoiceId, a.selectedChoiceId)
    && Agrees(a.event.payload.correct, a.correct)
    && Agrees(a.event.payload.hintLevel, a.hintLevel)
  }

  predicate Core(skill: string) {
    skill in {"linear_equations", "systems_equations", "ratios_percentages", "functions_models"}
  }

  function AnswerOf(a: Evaluation): Answer {
    Answer(a.event.eventId, a.studentId, a.sessionId, a.contentId, a.skill, a.correct, a.hintLevel, a.weight,
           a.valid, a.misconception, a.event.occurredAt)
  }

  function AttemptOf(a: Answer): Attempt {
    Attempt(a.eventId, a.studentId, a.sessionId, a.itemId, a.correct, a.hintLevel, a.weight, a.valid, a.occurredAt)
  }

  /** The evidence row of an answer: one exactly for a named misconception, with its own fields. */
  predicate EvidenceIs(a: Evaluation, row: Option<EvidenceRow>) {
    match row
    case None => a.misconception.None?
    case Some(r) => r == EvidenceRow(a.studentId, a.skill, r.misconception, a.contentId, a.event.eventId, r.state)
                    && a.misconception == Some(r.misconception)
  }

  predicate RowOf(a: Answer, r: EvidenceRow) {
    && a.misconception.Some? && r.studentId == a.studentId && r.skill == a.skill
    && r.misconception == a.misconception.value && r.itemId == a.itemId && r.eventId == a.eventId
  }

  /** The rows of misconception_evidence are one for each named misconception of the accepted
      answers, in order. */
  ghost predicate ListMisconceptions(log: seq<Answer>, rows: seq<EvidenceRow>) {
    if log == [] then rows == []
    else if log[|log| - 1].misconception.None? then ListMisconceptions(log[..|log| - 1], rows)
    else
      && rows != [] && RowOf(log[|log| - 1], rows[|rows| - 1])
      && ListMisconceptions(log[..|log| - 1], rows[..|rows| - 1])
  }

  // ---- each table as a function of the accepted answers

  ghost predicate EventsFollow(log: seq<Answer>, events: seq<string>) {
    NoRepeats(events) && forall a :: a in log ==> a.eventId in events
  }

  ghost predicate AttemptFollows(log: seq<Answer>, attempts: seq<Attempt>, i: nat)
    requires i < |log| == |attempts|
  {
    attempts[i] == AttemptOf(log[i])
  }

  ghost predicate AttemptsFollow(log: seq<Answer>, attempts: seq<Attempt>) {
    |attempts| == |log| && forall i :: 0 <= i < |log| ==> AttemptFollows(log, attempts, i)
  }

  ghost predicate SkillFollows(log: seq<Answer>, skillStates: map<(string, string), SkillRow>,
                               student: string, skill: string)
  {
    && ((student, skill) in skillStates <==> Core(skill) && Practiced(log, student, skill))
    && ((student, skill) in skillStates ==> skillStates[(student, skill)] == Projection(log, student, skill))
  }

  ghost predicate SkillsFollow(log: seq<Answer>, skillStates: map<(string, string), SkillRow>) {
    forall student, skill :: SkillFollows(log, skillStates, student, skill)
  }

  ghost predicate EvidenceFollows(log: seq<Answer>, evidence: seq<EvidenceRow>) {
    ListMisconceptions(log, evidence) && Recounted(evidence)
  }

  class LearnerStore {
    /** The ids in the table students, which this store only reads. */
    const students: set<string>
    var events: seq<string>
    var attempts: seq<Attempt>
    var skillStates: map<(string, string), SkillRow>
    var evidence: seq<EvidenceRow>
    var sessions: map<string, Session>
    /** The calls that committed, in order. */
    ghost var accepted: seq<Answer>

    constructor (students: set<string>)
      ensures Valid() && accepted == [] && events == [] && sessions == map[] && this.students == students
    {
      this.students := students;
      events, attempts, skillStates, evidence, sessions, accepted := [], [], map[], [], map[], [];
    }

    /** Every projection is a function of the accepted answers. */
    ghost predicate Valid()
      reads `accepted, `events, `attempts, `skillStates, `evidence
    {
      && EventsFollow(accepted, events)
      && AttemptsFollow(accepted, attempts)
      && SkillsFollow(accepted, skillStates)
      && EvidenceFollows(accepted, evidence)
    }

    ghost predicate SameTables(events0: seq<string>, attempts0: seq<Attempt>, skills0: map<(string, string), SkillRow>,
                               evidence0: seq<EvidenceRow>, sessions0: map<string, Session>)
      reads this
    {
      && events == events0 && attempts == attempts0 && skillStates == skills0 && evidence == evidence0
      && sessions == sessions0
    }

    /** The checks of a call before its first write. */
    ghost predicate Admissible(a: Evaluation)
      reads this
    {
      && a.event.answerEvaluated
      && a.event.studentId == a.studentId && a.event.sessionId == a.sessionId
      && PayloadAgrees(a)
      && a.event.eventId !in events
      && a.sessionId in sessions && sessions[a.sessionId].studentId == a.studentId
      && CanTransition(sessions[a.sessionId].state, a.sessionState)
      && a.event.hashMatches
    }

    /** The checks written out: an answer_evaluated event of the same student and session, whose payload
        contradicts no argument, under a fresh id, in a session of that student that may move to the
        target state, with its own hash. */
    lemma AdmissibleIff(a: Evaluation)
      ensures var e, p := a.event, a.event.payload;
              Admissible(a) <==>
                && e.answerEvaluated && e.studentId == a.studentId && e.sessionId == a.sessionId
                && (p.contentId == None || p.contentId == Some(a.contentId))
                && (p.version == None || p.version == Some(a.contentVersion))
                && (p.selectedChoiceId == None || p.selectedChoiceId == Some(a.selectedChoiceId))
                && (p.correct == None || p.correct == Some(a.correct))
                && (p.hintLevel == None || p.hintLevel == Some(a.hintLevel))
                && e.eventId !in events
                && a.sessionId in sessions && sessions[a.sessionId].studentId == a.studentId
                && a.sessionState in Transitions(sessions[a.sessionId].state)
                && e.hashMatches
    {
    }

    /** The division that the mastery property performs on the updated row is defined. */
    ghost predicate MasteryDefined(a: Evaluation)
      reads this
    {
      Core(a.skill) ==>
        var row := Projection(accepted + [AnswerOf(a)], a.studentId, a.skill);
        row.alpha + row.beta != 0.0
    }

    method CreateSession(studentId: string, sessionId: string, eventId: string) returns (ok: bool)
      requires Valid()
      modifies this
      ensures Valid() && accepted == old(accepted)
      ensures ok <==> studentId in students && eventId !in old(events) && sessionId !in old(sessions)
      ensures ok ==>
              events == old(events) + [eventId] && sessions == old(sessions)[sessionId := Session(studentId, New)]
      ensures !ok ==> SameTables(old(events), old(attempts), old(skillStates), old(evidence), old(sessions))
      ensures attempts == old(attempts) && skillStates == old(skillStates) && evidence == old(evidence)
    {
      if studentId !in students || eventId in events || sessionId in sessions {
        return false;
      }
      events := events + [eventId];
      sessions := sessions[sessionId := Session(studentId, New)];
      ok := true;
    }

    method TransitionSession(sessionId: string, target: SessionState) returns (r: Result<SessionState, StoreError>)
      requires Valid()
      modifies this`sessions
      ensures Valid()
      ensures r.Ok? <==> sessionId in old(sessions) && CanTransition(old(sessions)[sessionId].state, target)
      ensures r.Ok? ==>
              r.value == target && sessions == old(sessions)[sessionId := old(sessions)[sessionId].(state := target)]
      ensures r.Err? ==> sessions == old(sessions)
    {
      if sessionId !in sessions {
        return Err(UnknownSession);
      }
      var source := sessions[sessionId].state;
      if !CanTransition(source, target) {
        return Err(IllegalTransition);
      }
      sessions := sessions[sessionId := sessions[sessionId].(state := target)];
      r := Ok(target);
    }

    /** Read the skill row (inserting the default one first), update the loaded object, write it
        back; None when the mastery property divides by zero. */
    method UpdateSkill(a: Evaluation) returns (row: Option<SkillRow>)
      requires SkillsFollow(accepted, skillStates)
      requires Core(a.skill)
      modifies this`skillStates
      ensures var next := Projection(accepted + [AnswerOf(a)], a.studentId, a.skill);
              && (row.Some? <==> next.alpha + next.beta != 0.0)
              && (row.Some? ==> row.value == next && skillStates == old(skillStates)[(a.studentId, a.skill) := next])
    {
      var key := (a.studentId, a.skill);
      assert SkillFollows(accepted, skillStates, a.studentId, a.skill);
      ProjectionSnoc(accepted, AnswerOf(a), a.studentId, a.skill);
      if key !in skillStates {
        NotPracticed(accepted, a.studentId, a.skill);
        skillStates := skillStates[key := FreshRow];
      }
      RowIsDerived(accepted, a.studentId, a.skill);
      var state := new SkillState(skillStates[key]);
      if a.valid {
        state.RecordAttempt(a.correct, a.weight, a.event.occurredAt);
      }
      if state.alpha + state.beta == 0.0 {
        return None;
      }
      skillStates := skillStates[key := state.Row()];
      row := Some(skillStates[key]);
    }

    /** The projection update of one answer; skills outside the core have no row. */
    method WriteSkill(a: Evaluation) returns (ok: bool, row: Option<SkillRow>)
      requires SkillsFollow(accepted, skillStates)
      modifies this`skillStates
      ensures ok <==> MasteryDefined(a)
      ensures ok ==> SkillsFollow(accepted + [AnswerOf(a)], skillStates)
      ensures ok ==>
              row == if Core(a.skill) then Some(Projection(accepted + [AnswerOf(a)], a.studentId, a.skill)) else None
    {
      ghost var before := skillStates;
      row := None;
      if Core(a.skill) {
        row := UpdateSkill(a);
        if row.None? {
          return false, None;
        }
      }
      SkillTableSnoc(accepted, AnswerOf(a), before, skillStates);
      ok := true;
    }

    /** The evidence row of one answer, if its mistake is a known misconception. */
    method WriteEvidence(a: Evaluation) returns (row: Option<EvidenceRow>)
      requires EvidenceFollows(accepted, evidence)
      modifies this`evidence
      ensures EvidenceFollows(accepted + [AnswerOf(a)], evidence)
      ensures evidence == old(evidence) + (if row.Some? then [row.value] else [])
      ensures EvidenceIs(a, row)
    {
      ghost var before := evidence;
      row := None;
      if a.misconception.Some? {
        var inserted := InsertEvidence(a, a.misconception.value);
        row := Some(inserted);
      }
      ObservationsSnoc(accepted, AnswerOf(a), before, evidence);
    }

    /** Count what is stored and insert one more evidence row. */
    method InsertEvidence(a: Evaluation, misconception: string) returns (row: EvidenceRow)
      requires Recounted(evidence)
      modifies this`evidence
      ensures evidence == old(evidence) + [row] && Recounted(evidence)
      ensures row == EvidenceRow(a.studentId, a.skill, misconception, a.contentId, a.event.eventId, row.state)
    {
      var counted := Matching(evidence, a.studentId, a.skill, misconception);
      var total := |counted|;
      var distinctItems := |Items(counted)|;
      var currentItemCount := |AboutItem(counted, a.contentId)|;
      ghost var isNew := a.contentId !in Items(counted);
      CurrentItem(counted, a.contentId);
      var state := NextMisconceptionState(total + 1, distinctItems + (if currentItemCount == 0 then 1 else 0));
      row := EvidenceRow(a.studentId, a.skill, misconception, a.contentId, a.event.eventId, state);
      IncrementIsRecount(evidence, row, counted);
      evidence := evidence + [row];
    }

    method CheckCall(a: Evaluation) returns (problem: Option<StoreError>)
      ensures problem.None? <==> Admissible(a)
    {
      if !a.event.answerEvaluated {
        return Some(WrongEventType);
      }
      if a.event.studentId != a.studentId || a.event.sessionId != a.sessionId {
        return Some(ArgumentMismatch);
      }
      if !PayloadAgrees(a) {
        return Some(PayloadMismatch);
      }
      if a.event.eventId in events {
        return Some(DuplicateEventId);
      }
      if a.sessionId !in sessions {
        return Some(UnknownSession);
      }
      if sessions[a.sessionId].studentId != a.studentId {
        return Some(NotSessionOwner);
      }
      if !CanTransition(sessions[a.sessionId].state, a.sessionState) {
        return Some(IllegalTransition);
      }
      if !a.event.hashMatches {
        return Some(InvalidIntegrityHash);
      }
      problem := None;
    }

    method RecordAnswerEvaluation(a: Evaluation)
      returns (r: Result<(Option<EvidenceRow>, Option<SkillRow>), StoreError>)
      requires Valid()
      modifies this
      ensures Valid()
      ensures r.Ok? <==> old(Admissible(a) && MasteryDefined(a))
      ensures r.Ok? ==>
                && accepted == old(accepted)
                               + [Answer(a.event.eventId, a.studentId, a.sessionId, a.contentId, a.skill, a.correct,
                                         a.hintLevel, a.weight, a.valid, a.misconception, a.event.occurredAt)]
                && events == old(events) + [a.event.eventId]
                && attempts == old(attempts)
                               + [Attempt(a.event.eventId, a.studentId, a.sessionId, a.contentId, a.correct,
                                          a.hintLevel, a.weight, a.valid, a.event.occurredAt)]
                && sessions == old(sessions)[a.sessionId := Session(a.studentId, a.sessionState)]
                && evidence == old(evidence) + (if r.value.0.Some? then [r.value.0.value] else [])
                && EvidenceIs(a, r.value.0)
                && (r.value.1.Some? <==> a.skill in {"linear_equations", "systems_equations", "ratios_percentages",
                                                     "functions_models"})
                && (r.value.1.Some? ==> r.value.1.value == Projection(accepted, a.studentId, a.skill))
      ensures r.Err? ==>
                && accepted == old(accepted)
                && SameTables(old(events), old(attempts), old(skillStates), old(evidence), old(sessions))
    {
      var problem := CheckCall(a);
      if problem.Some? {
        return Err(problem.value);
      }
      r := WriteAnswer(a);
    }

    /** The two projections of one answer, the skill row first. */
    method WriteProjections(a: Evaluation) returns (ok: bool, inserted: Option<EvidenceRow>, row: Option<SkillRow>)
      requires SkillsFollow(accepted, skillStates) && EvidenceFollows(accepted, evidence)
      modifies this`skillStates, this`evidence
      ensures ok <==> MasteryDefined(a)
      ensures ok ==> SkillsFollow(accepted + [AnswerOf(a)], skillStates)
                     && EvidenceFollows(accepted + [AnswerOf(a)], evidence)
      ensures ok ==>
              row == if Core(a.skill) then Some(Projection(accepted + [AnswerOf(a)], a.studentId, a.skill)) else None
      ensures ok ==> evidence == old(evidence) + (if inserted.Some? then [inserted.value] else [])
      ensures ok ==> EvidenceIs(a, inserted)
      ensures !ok ==> evidence == old(evidence)
    {
      inserted := None;
      ok, row := WriteSkill(a);
      if ok {
        inserted := WriteEvidence(a);
      }
    }

    /** The writes of the transaction, in the order of the statements; a failure restores the
        saved tables. */
    method WriteAnswer(a: Evaluation) returns (r: Result<(Option<EvidenceRow>, Option<SkillRow>), StoreError>)
      requires Valid() && Admissible(a)
      modifies this
      ensures Valid()
      ensures r.Ok? <==> old(MasteryDefined(a))
      ensures r.Ok? ==>
                && accepted == old(accepted) + [AnswerOf(a)]
                && events == old(events) + [a.event.eventId]
                && sessions == old(sessions)[a.sessionId := Session(a.studentId, a.sessionState)]
                && evidence == old(evidence) + (if r.value.0.Some? then [r.value.0.value] else [])
                && EvidenceIs(a, r.value.0)
                && (r.value.1.Some? <==> Core(a.skill))
                && (r.value.1.Some? ==> r.value.1.value == Projection(accepted, a.studentId, a.skill))
                && attempts == old(attempts) + [AttemptOf(AnswerOf(a))]
      ensures r.Err? ==>
                && accepted == old(accepted)
                && SameTables(old(events), old(attempts), old(skillStates), old(evidence), old(sessions))
    {
      var savedEvents, savedAttempts, savedSkills := events, attempts, skillStates;
      LogSnoc(accepted, AnswerOf(a), events, attempts);
      events := events + [a.event.eventId];
      attempts := attempts + [AttemptOf(AnswerOf(a))];
      var ok, inserted, row := WriteProjections(a);
      if !ok {
        events, attempts, skillStates := savedEvents, savedAttempts, savedSkills;
        return Err(MasteryUndefined);
      }
      sessions := sessions[a.sessionId := sessions[a.sessionId].(state := a.sessionState)];
      accepted := accepted + [AnswerOf(a)];
      r := Ok((inserted, row));
    }

    method CountMisconceptionEvidence(student: string, skill: string, misconception: string)
      returns (total: nat, distinctItems: nat)
      ensures total == |Matching(evidence, student, skill, misconception)|
      ensures distinctItems == |Items(Matching(evidence, student, skill, misconception))|
    {
      var rows := Matching(evidence, student, skill, misconception);
      total, distinctItems := |rows|, |Items(rows)|;
    }
  }

  // ---- `COUNT(*) FILTER (WHERE item_id = ...)`

  function AboutItem(rows: seq<EvidenceRow>, item: string): seq<EvidenceRow> {
    if rows == [] then []
    else
      AboutItem(rows[..|rows| - 1], item) + (if rows[|rows| - 1].itemId == item then [rows[|rows| - 1]] else [])
  }

  lemma {:induction false} CurrentItem(rows: seq<EvidenceRow>, item: string)
    ensures |AboutItem(rows, item)| == 0 <==> item !in Items(rows)
  {
    if rows != [] {
      var init := rows[..|rows| - 1];
      CurrentItem(init, item);
      assert rows == init + [rows[|rows| - 1]];
      assert Items(rows) == Items(init) + {rows[|rows| - 1].itemId};
    }
  }

  // ---- the folds after one more answer

  lemma LogSnoc(log: seq<Answer>, a: Answer, events: seq<string>, attempts: seq<Attempt>)
    requires EventsFollow(log, events) && AttemptsFollow(log, attempts) && a.eventId !in events
    ensures EventsFollow(log + [a], events + [a.eventId])
    ensures AttemptsFollow(log + [a], attempts + [AttemptOf(a)])
  {
    forall i | 0 <= i < |log|
      ensures AttemptFollows(log + [a], attempts + [AttemptOf(a)], i)
    {
      assert AttemptFollows(log, attempts, i);
    }
  }

  lemma {:induction false} ProjectionSnoc(log: seq<Answer>, a: Answer, student: string, skill: string)
    ensures Projection(log + [a], student, skill)
         == if Counts(a, student, skill)
            then Recorded(Projection(log, student, skill), a.correct, a.weight, a.occurredAt)
            else Projection(log, student, skill)
  {
  }

  lemma {:induction false} NotPracticed(log: seq<Answer>, student: string, skill: string)
    requires !Practiced(log, student, skill)
    ensures Projection(log, student, skill) == FreshRow
  {
    if log != [] {
      var init := log[..|log| - 1];
      assert !About(log[|log| - 1], student, skill);
      assert forall i :: 0 <= i < |init| ==> init[i] == log[i];
      NotPracticed(init, student, skill);
    }
  }

  lemma PracticedSnoc(log: seq<Answer>, a: Answer, student: string, skill: string)
    ensures Practiced(log + [a], student, skill) <==> Practiced(log, student, skill) || About(a, student, skill)
  {
    var more := log + [a];
    if Practiced(log, student, skill) {
      var i :| 0 <= i < |log| && About(log[i], student, skill);
      assert About(more[i], student, skill);
    }
    assert more[|log|] == a;
  }

  lemma {:induction false} SkillTableSnoc(log: seq<Answer>, a: Answer, before: map<(string, string), SkillRow>,
                                          after: map<(string, string), SkillRow>)
    requires SkillsFollow(log, before)
    requires after
          == if Core(a.skill) then before[(a.studentId, a.skill) := Projection(log + [a], a.studentId, a.skill)]
             else before
    ensures SkillsFollow(log + [a], after)
  {
    forall student, skill
      ensures SkillFollows(log + [a], after, student, skill)
    {
      assert SkillFollows(log, before, student, skill);
      PracticedSnoc(log, a, student, skill);
      ProjectionSnoc(log, a, student, skill);
    }
  }

  lemma {:induction false} ObservationsSnoc(log: seq<Answer>, a: Answer, before: seq<EvidenceRow>,
                                            after: seq<EvidenceRow>)
    requires ListMisconceptions(log, before)
    requires if a.misconception.None? then after == before
             else |after| == |before| + 1 && after[..|before|] == before && RowOf(a, after[|before|])
    ensures ListMisconceptions(log + [a], after)
  {
    assert (log + [a])[..|log|] == log;
  }
}
