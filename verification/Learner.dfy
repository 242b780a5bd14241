/** Learner evidence of app/domain/learner.py: evidence weights, the Beta mastery projection
    and the misconception ladder, with the projections defined as folds over accepted answers. */
module Learner {
  import opened Common
  import opened Ordering

  // ---- evidence weights

  function DifficultyWeight(d: int): real {
    if d == 1 then 0.75 else if d == 3 then 1.25 else 1.0
  }

  function HintMultiplier(h: int): real {
    if h == 1 then 0.80 else if h == 2 then 0.55 else if h == 3 then 0.30 else 1.0
  }

  /** `EvidenceWeight`, whose field bounds the constructor enforces. */
  datatype EvidenceWeight = EvidenceWeight(
    difficulty: int, hintLevel: int, repeatedSameItem: bool, immediateTransfer: bool, validityMultiplier: real)
  {
    predicate Valid() {
      1 <= difficulty <= 3 && 0 <= hintLevel <= 3 && 0.0 <= validityMultiplier <= 1.0
    }

    function Weight(): real {
      DifficultyWeight(difficulty)
      * HintMultiplier(hintLevel)
      * (if repeatedSameItem then 0.35 else 1.0)
      * (if immediateTransfer then 1.10 else 1.0)
      * validityMultiplier
    }
  }

  /** An answer never counts negatively, never more than 1.375, and counts nothing exactly when
      its validity is zero. */
  lemma WeightBounds(e: EvidenceWeight)
    requires e.Valid()
    ensures 0.0 <= e.Weight() <= 1.375
    ensures e.Weight() == 0.0 <==> e.validityMultiplier == 0.0
  {
  }

  lemma Rescaled(b: real, c: real, d: real, v: real, f: real)
    ensures f * b * c * d * v == f * (1.0 * b * c * d * v)
    ensures b * f * c * d * v == f * (b * 1.0 * c * d * v)
    ensures b * c * f * d * v == f * (b * c * 1.0 * d * v)
    ensures b * c * d * f * v == f * (b * c * d * 1.0 * v)
  {
  }

  lemma DifficultyFactor(e: EvidenceWeight)
    ensures e.(difficulty := 1).Weight() == 0.75 * e.(difficulty := 2).Weight()
    ensures e.(difficulty := 3).Weight() == 1.25 * e.(difficulty := 2).Weight()
  {
    var b, v := HintMultiplier(e.hintLevel), e.validityMultiplier;
    var c, d := if e.repeatedSameItem then 0.35 else 1.0, if e.immediateTransfer then 1.10 else 1.0;
    Rescaled(b, c, d, v, 0.75);
    Rescaled(b, c, d, v, 1.25);
  }

  lemma HintFactor(e: EvidenceWeight)
    ensures e.(hintLevel := 1).Weight() == 0.8 * e.(hintLevel := 0).Weight()
    ensures e.(hintLevel := 2).Weight() == 0.55 * e.(hintLevel := 0).Weight()
    ensures e.(hintLevel := 3).Weight() == 0.3 * e.(hintLevel := 0).Weight()
  {
    var b, v := DifficultyWeight(e.difficulty), e.validityMultiplier;
    var c, d := if e.repeatedSameItem then 0.35 else 1.0, if e.immediateTransfer then 1.10 else 1.0;
    Rescaled(b, c, d, v, 0.8);
    Rescaled(b, c, d, v, 0.55);
    Rescaled(b, c, d, v, 0.3);
  }

  lemma RepetitionAndTransferFactor(e: EvidenceWeight)
    ensures e.(repeatedSameItem := true).Weight() == 0.35 * e.(repeatedSameItem := false).Weight()
    ensures e.(immediateTransfer := true).Weight() == 1.1 * e.(immediateTransfer := false).Weight()
  {
    var a, b, v := DifficultyWeight(e.difficulty), HintMultiplier(e.hintLevel), e.validityMultiplier;
    Rescaled(a, b, if e.immediateTransfer then 1.10 else 1.0, v, 0.35);
    Rescaled(a, b, if e.repeatedSameItem then 0.35 else 1.0, v, 1.1);
  }

  /** The factors: a plain answer of medium difficulty counts as much as it is valid; an easy one
      three quarters and a hard one five quarters of that; one, two or three hints leave 80, 55 or 30
      per cent; the same item again 35 per cent; an immediate transfer adds a tenth. */
  lemma WeightFactors(e: EvidenceWeight)
    ensures e.(difficulty := 2, hintLevel := 0, repeatedSameItem := false, immediateTransfer := false).Weight()
         == e.validityMultiplier
    ensures e.(difficulty := 1).Weight() == 0.75 * e.(difficulty := 2).Weight()
    ensures e.(difficulty := 3).Weight() == 1.25 * e.(difficulty := 2).Weight()
    ensures e.(hintLevel := 1).Weight() == 0.8 * e.(hintLevel := 0).Weight()
    ensures e.(hintLevel := 2).Weight() == 0.55 * e.(hintLevel := 0).Weight()
    ensures e.(hintLevel := 3).Weight() == 0.3 * e.(hintLevel := 0).Weight()
    ensures e.(repeatedSameItem := true).Weight() == 0.35 * e.(repeatedSameItem := false).Weight()
    ensures e.(immediateTransfer := true).Weight() == 1.1 * e.(immediateTransfer := false).Weight()
  {
    DifficultyFactor(e);
    HintFactor(e);
    RepetitionAndTransferFactor(e);
  }

  // ---- the skill row

  const DEFAULT_ALPHA := 2.0
  const DEFAULT_BETA := 2.0

  function Mastery(alpha: real, beta: real): real {
    if alpha + beta == 0.0 then 0.0 else alpha / (alpha + beta)
  }

  function Confidence(alpha: real, beta: real): real {
    var c := (alpha + beta - 4.0) / 8.0;
    if c < 0.0 then 0.0 else if c > 1.0 then 1.0 else c
  }

  /** A row of student_skill_states. */
  datatype SkillRow = SkillRow(
    alpha: real, beta: real, mastery: real, confidence: real, evidenceCount: nat,
    correctStreak: nat, incorrectStreak: nat, lastPracticedAt: Option<string>)

  const FreshRow := SkillRow(DEFAULT_ALPHA, DEFAULT_BETA, Mastery(DEFAULT_ALPHA, DEFAULT_BETA), 0.0, 0, 0, 0, None)

  /** The mutable `SkillState` the store loads a row into. */
  class SkillState {
    var alpha: real
    var beta: real
    var evidenceCount: nat
    var correctStreak: nat
    var incorrectStreak: nat
    var lastPracticedAt: Option<string>

    constructor (row: SkillRow)
      ensures alpha == row.alpha && beta == row.beta && evidenceCount == row.evidenceCount
      ensures correctStreak == row.correctStreak && incorrectStreak == row.incorrectStreak
      ensures lastPracticedAt == row.lastPracticedAt
    {
      alpha, beta, evidenceCount := row.alpha, row.beta, row.evidenceCount;
      correctStreak, incorrectStreak, lastPracticedAt := row.correctStreak, row.incorrectStreak, row.lastPracticedAt;
    }

    function Row(): SkillRow
      reads this
    {
      SkillRow(alpha, beta, Mastery(alpha, beta), Confidence(alpha, beta), evidenceCount,
               correctStreak, incorrectStreak, lastPracticedAt)
    }

    method RecordAttempt(correct: bool, weight: real, now: string)
      modifies this
      ensures Row() == Recorded(old(Row()), correct, weight, now)
    {
      if correct {
        alpha := alpha + weight;
        correctStreak := correctStreak + 1;
        incorrectStreak := 0;
      } else {
        beta := beta + weight;
        incorrectStreak := incorrectStreak + 1;
        correctStreak := 0;
      }
      evidenceCount := evidenceCount + 1;
      lastPracticedAt := Some(now);
    }
  }

  /** The row after one more answer: the weight goes to one side, the other streak ends. */
  function Recorded(row: SkillRow, correct: bool, weight: real, now: string): SkillRow {
    var alpha := if correct then row.alpha + weight else row.alpha;
    var beta := if correct then row.beta else row.beta + weight;
    SkillRow(alpha, beta, Mastery(alpha, beta), Confidence(alpha, beta), row.evidenceCount + 1,
             if correct then row.correctStreak + 1 else 0,
             if correct then 0 else row.incorrectStreak + 1,
             Some(now))
  }

  // ---- projections as folds

  /** One accepted call of `record_answer_evaluation`. */
  datatype Answer = Answer(
    eventId: string, studentId: string, sessionId: string, itemId: string, skill: string,
    correct: bool, hintLevel: int, weight: real, valid: bool, misconception: Option<string>, occurredAt: string)

  predicate About(a: Answer, student: string, skill: string) {
    a.studentId == student && a.skill == skill
  }

  predicate Counts(a: Answer, student: string, skill: string) {
    About(a, student, skill) && a.valid
  }

  /** The projection of a skill: the fold of its valid answers over the default row. */
  function Projection(log: seq<Answer>, student: string, skill: string): SkillRow {
    if log == [] then FreshRow
    else
      var before := Projection(log[..|log| - 1], student, skill);
      var a := log[|log| - 1];
      if Counts(a, student, skill) then Recorded(before, a.correct, a.weight, a.occurredAt) else before
  }

  predicate Practiced(log: seq<Answer>, student: string, skill: string) {
    exists i :: 0 <= i < |log| && About(log[i], student, skill)
  }

  function Total(f: Answer -> real, log: seq<Answer>): real {
    if log == [] then 0.0 else Total(f, log[..|log| - 1]) + f(log[|log| - 1])
  }

  function RightWeight(student: string, skill: string): Answer -> real {
    (a: Answer) => if Counts(a, student, skill) && a.correct then a.weight else 0.0
  }

  function WrongWeight(student: string, skill: string): Answer -> real {
    (a: Answer) => if Counts(a, student, skill) && !a.correct then a.weight else 0.0
  }

  function One(student: string, skill: string): Answer -> real {
    (a: Answer) => if Counts(a, student, skill) then 1.0 else 0.0
  }

  /** Conservation: every unit of weight is in alpha or in beta, and nothing else is. */
  lemma {:induction false} ProjectionTotals(log: seq<Answer>, student: string, skill: string)
    ensures var row := Projection(log, student, skill);
            && row.alpha == 2.0 + Total(RightWeight(student, skill), log)
            && row.beta == 2.0 + Total(WrongWeight(student, skill), log)
            && row.evidenceCount as real == Total(One(student, skill), log)
            && row.mastery == Mastery(row.alpha, row.beta)
  {
    if log != [] {
      ProjectionTotals(log[..|log| - 1], student, skill);
    }
  }

  lemma {:induction false} TotalsAdd(log: seq<Answer>, student: string, skill: string)
    ensures Total(RightWeight(student, skill), log) + Total(WrongWeight(student, skill), log)
         == Total((a: Answer) => if Counts(a, student, skill) then a.weight else 0.0, log)
  {
    if log != [] {
      TotalsAdd(log[..|log| - 1], student, skill);
    }
  }

  /** alpha + beta is 4 plus the weights of the valid answers about the skill. */
  lemma {:induction false} EvidenceIsConserved(log: seq<Answer>, student: string, skill: string)
    ensures Projection(log, student, skill).alpha + Projection(log, student, skill).beta
         == 4.0 + Total((a: Answer) => if Counts(a, student, skill) then a.weight else 0.0, log)
  {
    ProjectionTotals(log, student, skill);
    TotalsAdd(log, student, skill);
  }

  lemma {:induction false} TotalNonNegative(f: Answer -> real, log: seq<Answer>)
    requires forall a :: a in log ==> f(a) >= 0.0
    ensures Total(f, log) >= 0.0
  {
    if log != [] {
      TotalNonNegative(f, log[..|log| - 1]);
    }
  }

  /** With weights that `EvidenceWeight` can produce, mastery is a proper probability. */
  lemma {:induction false} MasteryInUnitInterval(log: seq<Answer>, student: string, skill: string)
    requires forall a :: a in log ==> a.weight >= 0.0
    ensures 0.0 < Projection(log, student, skill).mastery < 1.0
  {
    ProjectionTotals(log, student, skill);
    TotalNonNegative(RightWeight(student, skill), log);
    TotalNonNegative(WrongWeight(student, skill), log);
    ProperFraction(Projection(log, student, skill).alpha, Projection(log, student, skill).beta);
  }

  lemma ProperFraction(a: real, b: real)
    requires a > 0.0 && b > 0.0
    ensures 0.0 < a / (a + b) < 1.0
  {
  }

  lemma {:induction false} OneStreakAtMost(log: seq<Answer>, student: string, skill: string)
    ensures Projection(log, student, skill).correctStreak == 0 || Projection(log, student, skill).incorrectStreak == 0
    ensures Projection(log, student, skill).correctStreak + Projection(log, student, skill).incorrectStreak
         <= Projection(log, student, skill).evidenceCount
  {
    if log != [] {
      OneStreakAtMost(log[..|log| - 1], student, skill);
    }
  }

  // ---- what a projected row says

  /** The valid answers of a student in a skill, in order of arrival. */
  function Evidence(log: seq<Answer>, student: string, skill: string): (evidence: seq<Answer>)
    ensures forall a :: a in evidence ==> a in log
  {
    if log == [] then []
    else
      var before, a := Evidence(log[..|log| - 1], student, skill), log[|log| - 1];
      if a.studentId == student && a.skill == skill && a.valid then before + [a] else before
  }

  predicate Weighted(log: seq<Answer>) {
    forall a :: a in log ==> a.weight >= 0.0
  }

  /** The weights of the right answers, or of the wrong ones. */
  function Sum(evidence: seq<Answer>, correct: bool): (sum: real)
    requires Weighted(evidence)
    ensures sum >= 0.0
  {
    if evidence == [] then 0.0
    else
      var last := evidence[|evidence| - 1];
      Sum(evidence[..|evidence| - 1], correct) + (if last.correct == correct then last.weight else 0.0)
  }

  /** The last `n` answers are right, or wrong, and no more than that. */
  predicate LastRun(evidence: seq<Answer>, correct: bool, n: nat) {
    && n <= |evidence|
    && (forall i :: |evidence| - n <= i < |evidence| ==> evidence[i].correct == correct)
    && (n < |evidence| ==> evidence[|evidence| - n - 1].correct != correct)
  }

  lemma LastRunSnoc(evidence: seq<Answer>, correct: bool, n: nat, a: Answer)
    requires LastRun(evidence, correct, n)
    ensures LastRun(evidence + [a], correct, if a.correct == correct then n + 1 else 0)
  {
  }

  lemma {:induction false} StreaksAreLastRuns(log: seq<Answer>, student: string, skill: string)
    ensures var row, evidence := Projection(log, student, skill), Evidence(log, student, skill);
            && LastRun(evidence, true, row.correctStreak) && LastRun(evidence, false, row.incorrectStreak)
            && row.evidenceCount == |evidence|
            && row.lastPracticedAt == if evidence == [] then None else Some(evidence[|evidence| - 1].occurredAt)
  {
    if log != [] {
      var init, a := log[..|log| - 1], log[|log| - 1];
      StreaksAreLastRuns(init, student, skill);
      var row, evidence := Projection(init, student, skill), Evidence(init, student, skill);
      LastRunSnoc(evidence, true, row.correctStreak, a);
      LastRunSnoc(evidence, false, row.incorrectStreak, a);
    }
  }

  lemma {:induction false} SumSnoc(evidence: seq<Answer>, correct: bool, a: Answer)
    requires Weighted(evidence) && a.weight >= 0.0
    ensures Sum(evidence + [a], correct) == Sum(evidence, correct) + (if a.correct == correct then a.weight else 0.0)
  {
    assert (evidence + [a])[..|evidence|] == evidence;
  }

  lemma {:induction false} CountsAreSums(log: seq<Answer>, student: string, skill: string)
    requires Weighted(log)
    ensures var row, evidence := Projection(log, student, skill), Evidence(log, student, skill);
            row.alpha == 2.0 + Sum(evidence, true) && row.beta == 2.0 + Sum(evidence, false)
  {
    if log != [] {
      var init, a := log[..|log| - 1], log[|log| - 1];
      assert Weighted(init) && a in log;
      CountsAreSums(init, student, skill);
      SumSnoc(Evidence(init, student, skill), true, a);
      SumSnoc(Evidence(init, student, skill), false, a);
    }
  }

  /** A stored row in plain terms: mastery is the weight of the right answers in all of them, with two
      units on each side to begin with; confidence is the weight of all answers, full from eight units
      on; each streak is the length of the last run of equal answers. */
  lemma {:induction false} ProjectionIs(log: seq<Answer>, student: string, skill: string)
    requires Weighted(log)
    ensures var row, evidence := Projection(log, student, skill), Evidence(log, student, skill);
            var right, wrong := Sum(evidence, true), Sum(evidence, false);
            && row.mastery == (2.0 + right) / (4.0 + right + wrong)
            && row.confidence == (if right + wrong >= 8.0 then 1.0 else (right + wrong) / 8.0)
            && LastRun(evidence, true, row.correctStreak) && LastRun(evidence, false, row.incorrectStreak)
            && row.evidenceCount == |evidence|
            && row.lastPracticedAt == if evidence == [] then None else Some(evidence[|evidence| - 1].occurredAt)
  {
    CountsAreSums(log, student, skill);
    StreaksAreLastRuns(log, student, skill);
    RowIsDerived(log, student, skill);
  }

  lemma {:induction false} RowIsDerived(log: seq<Answer>, student: string, skill: string)
    ensures var row := Projection(log, student, skill);
            row.mastery == Mastery(row.alpha, row.beta) && row.confidence == Confidence(row.alpha, row.beta)
  {
    if log != [] {
      RowIsDerived(log[..|log| - 1], student, skill);
    }
  }

  // ---- the projection does not depend on the order of arrival

  lemma {:induction false} TotalWithout(f: Answer -> real, log: seq<Answer>, i: nat)
    requires i < |log|
    ensures Total(f, log) == Total(f, log[..i] + log[i + 1..]) + f(log[i])
  {
    var last := |log| - 1;
    if i < last {
      TotalWithout(f, log[..last], i);
      var rest := log[..i] + log[i + 1..];
      assert log[..last][..i] == log[..i];
      assert rest[..|rest| - 1] == log[..last][..i] + log[..last][i + 1..];
    } else {
      assert log[..i] + log[i + 1..] == log[..last];
    }
  }

  lemma {:induction false} TotalForgetsOrder(f: Answer -> real, a: seq<Answer>, b: seq<Answer>)
    requires multiset(a) == multiset(b)
    ensures Total(f, a) == Total(f, b)
    decreases |a|
  {
    if a == [] {
      assert |multiset(b)| == 0;
    } else {
      var init, last := a[..|a| - 1], a[|a| - 1];
      assert a == init + [last];
      assert last in multiset(a);
      var before, after := TakeOut(b, last);
      assert b[..|before|] == before && b[|before| + 1..] == after;
      assert multiset(init) == multiset(a) - multiset{last};
      TotalForgetsOrder(f, init, before + after);
      TotalWithout(f, b, |before|);
    }
  }

  /** Whatever order the same answers arrive in, the learner ends with the same mastery. */
  lemma {:induction false} ProjectionForgetsOrder(a: seq<Answer>, b: seq<Answer>, student: string, skill: string)
    requires multiset(a) == multiset(b)
    ensures var p, q := Projection(a, student, skill), Projection(b, student, skill);
            && p.alpha == q.alpha && p.beta == q.beta
            && p.evidenceCount == q.evidenceCount && p.mastery == q.mastery
  {
    ProjectionTotals(a, student, skill);
    ProjectionTotals(b, student, skill);
    TotalForgetsOrder(RightWeight(student, skill), a, b);
    TotalForgetsOrder(WrongWeight(student, skill), a, b);
    TotalForgetsOrder(One(student, skill), a, b);
  }

  lemma FractionMoves(x: real, y: real, w: real)
    requires x > 0.0 && y > 0.0 && w > 0.0
    ensures (x + w) / (x + y + w) > x / (x + y) > x / (x + y + w)
  {
    var p, q, r := x / (x + y), (x + w) / (x + y + w), x / (x + y + w);
    ProperFraction(x, y);
    assert p * (x + y) == x && q * (x + y + w) == x + w && r * (x + y + w) == x;
    PositiveFactor(q - p, x + y + w, w * (1.0 - p));
    PositiveFactor(p - r, x + y + w, p * w);
  }

  lemma PositiveFactor(d: real, z: real, product: real)
    requires z > 0.0 && d * z == product && product > 0.0
    ensures d > 0.0
  {
  }

  /** What one answer of positive weight does to the derived columns. */
  lemma DerivedColumnsMove(alpha: real, beta: real, w: real)
    requires alpha >= 2.0 && beta >= 2.0 && w > 0.0
    ensures Mastery(alpha + w, beta) > Mastery(alpha, beta) > Mastery(alpha, beta + w)
    ensures Confidence(alpha + w, beta) == Confidence(alpha, beta + w) >= Confidence(alpha, beta)
    ensures Confidence(alpha, beta) < 1.0 ==> Confidence(alpha + w, beta) > Confidence(alpha, beta)
  {
    FractionMoves(alpha, beta, w);
    assert alpha + beta + w == alpha + w + beta == alpha + (beta + w);
  }

  /** One more valid answer of positive weight, whenever it arrives: a right one raises mastery, a
      wrong one lowers it, and either raises confidence until that is full. */
  lemma {:induction false} OneMoreAnswer(log: seq<Answer>, more: seq<Answer>, student: string, skill: string, a: Answer)
    requires Weighted(log) && multiset(more) == multiset(log) + multiset{a}
    requires a.studentId == student && a.skill == skill && a.valid && a.weight > 0.0
    ensures var row, row' := Projection(log, student, skill), Projection(more, student, skill);
            && (a.correct ==> row'.mastery > row.mastery)
            && (!a.correct ==> row'.mastery < row.mastery)
            && row'.confidence >= row.confidence && (row.confidence < 1.0 ==> row'.confidence > row.confidence)
            && row'.evidenceCount == row.evidenceCount + 1
  {
    var row, snoc := Projection(log, student, skill), log + [a];
    assert snoc[..|log|] == log && snoc[|log|] == a;
    ProjectionForgetsOrder(more, snoc, student, skill);
    CountsAreSums(log, student, skill);
    RowIsDerived(log, student, skill);
    RowIsDerived(more, student, skill);
    DerivedColumnsMove(row.alpha, row.beta, a.weight);
  }

  // ---- the misconception ladder

  datatype MisconceptionState = Observed | Suspected | Confirmed

  function Rank(s: MisconceptionState): nat {
    match s
    case Observed => 0
    case Suspected => 1
    case Confirmed => 2
  }

  function NextMisconceptionState(observations: nat, distinctItems: nat): MisconceptionState {
    if observations >= 3 && distinctItems >= 2 then Confirmed
    else if observations >= 2 then Suspected
    else Observed
  }

  datatype EvidenceRow = EvidenceRow(
    studentId: string, skill: string, misconception: string, itemId: string, eventId: string, state: MisconceptionState)

  predicate SameKey(r: EvidenceRow, student: string, skill: string, misconception: string) {
    r.studentId == student && r.skill == skill && r.misconception == misconception
  }

  /** `SELECT ... WHERE student_id, skill, misconception`. */
  function Matching(rows: seq<EvidenceRow>, student: string, skill: string, misconception: string)
      : (m: seq<EvidenceRow>)
    ensures forall r :: r in m <==> r in rows && SameKey(r, student, skill, misconception)
  {
    if rows == [] then []
    else
      assert rows == rows[..|rows| - 1] + [rows[|rows| - 1]];
      var before := Matching(rows[..|rows| - 1], student, skill, misconception);
      if SameKey(rows[|rows| - 1], student, skill, misconception) then before + [rows[|rows| - 1]] else before
  }

  function Items(rows: seq<EvidenceRow>): set<string> {
    set r | r in rows :: r.itemId
  }

  /** Every stored state is what a recount of the rows up to and including it gives. */
  ghost predicate Recounted(rows: seq<EvidenceRow>) {
    forall i :: 0 <= i < |rows| ==> StateIsRecount(rows, i)
  }

  ghost predicate StateIsRecount(rows: seq<EvidenceRow>, i: nat)
    requires i < |rows|
  {
    rows[i].state == Recount(rows, i)
  }

  function Recount(rows: seq<EvidenceRow>, i: nat): MisconceptionState
    requires i < |rows|
  {
    var m := Matching(rows[..i + 1], rows[i].studentId, rows[i].skill, rows[i].misconception);
    NextMisconceptionState(|m|, |Items(m)|)
  }

  lemma {:induction false} MatchingSnoc(rows: seq<EvidenceRow>, r: EvidenceRow)
    ensures Matching(rows + [r], r.studentId, r.skill, r.misconception)
         == Matching(rows, r.studentId, r.skill, r.misconception) + [r]
  {
  }

  lemma ItemsSnoc(m: seq<EvidenceRow>, r: EvidenceRow)
    ensures |Items(m + [r])| == |Items(m)| + (if r.itemId in Items(m) then 0 else 1)
  {
    assert Items(m + [r]) == Items(m) + {r.itemId};
  }

  lemma {:induction false} LastRecount(rows: seq<EvidenceRow>, r: EvidenceRow, m: seq<EvidenceRow>)
    requires m == Matching(rows, r.studentId, r.skill, r.misconception)
    ensures Recount(rows + [r], |rows|)
         == NextMisconceptionState(|m| + 1, |Items(m)| + (if r.itemId in Items(m) then 0 else 1))
  {
    var more := rows + [r];
    assert more[..|rows| + 1] == more;
    MatchingSnoc(rows, r);
    ItemsSnoc(m, r);
  }

  lemma EarlierRecount(rows: seq<EvidenceRow>, r: EvidenceRow, i: nat)
    requires i < |rows| && StateIsRecount(rows, i)
    ensures StateIsRecount(rows + [r], i)
  {
    assert (rows + [r])[..i + 1] == rows[..i + 1];
  }

  /** The store's arithmetic, one more row and one more item if this one is new, is a recount. */
  lemma {:induction false} IncrementIsRecount(rows: seq<EvidenceRow>, r: EvidenceRow, m: seq<EvidenceRow>)
    requires Recounted(rows)
    requires m == Matching(rows, r.studentId, r.skill, r.misconception)
    requires r.state == NextMisconceptionState(|m| + 1, |Items(m)| + (if r.itemId in Items(m) then 0 else 1))
    ensures Recounted(rows + [r])
  {
    var more := rows + [r];
    assert StateIsRecount(more, |rows|) by {
      LastRecount(rows, r, m);
    }
    forall i | 0 <= i < |more|
      ensures StateIsRecount(more, i)
    {
      if i < |rows| {
        EarlierRecount(rows, r, i);
      }
    }
  }

  lemma {:induction false} MatchingGrows(rows: seq<EvidenceRow>, i: nat, j: nat, student: string, skill: string,
                                         misconception: string)
    requires i <= j <= |rows|
    ensures |Matching(rows[..i], student, skill, misconception)| <= |Matching(rows[..j], student, skill, misconception)|
    ensures Items(Matching(rows[..i], student, skill, misconception))
         <= Items(Matching(rows[..j], student, skill, misconception))
    decreases j - i
  {
    if i < j {
      MatchingGrows(rows, i, j - 1, student, skill, misconception);
      assert rows[..j][..j - 1] == rows[..j - 1];
      assert forall r :: r in rows[..j - 1] ==> r in rows[..j];
    }
  }

  lemma SubsetCount(a: set<string>, b: set<string>)
    requires a <= b
    ensures |a| <= |b|
  {
    assert b == a + (b - a);
  }

  lemma LadderMonotone(n: nat, d: nat, n': nat, d': nat)
    requires n <= n' && d <= d'
    ensures Rank(NextMisconceptionState(n, d)) <= Rank(NextMisconceptionState(n', d'))
  {
  }

  /** Over a run the recorded states of one misconception never go down. */
  lemma StatesNeverGoDown(rows: seq<EvidenceRow>, i: nat, j: nat)
    requires Recounted(rows) && i <= j < |rows|
    requires SameKey(rows[j], rows[i].studentId, rows[i].skill, rows[i].misconception)
    ensures Rank(rows[i].state) <= Rank(rows[j].state)
  {
    var student, skill, misconception := rows[i].studentId, rows[i].skill, rows[i].misconception;
    var m := Matching(rows[..i + 1], student, skill, misconception);
    var m' := Matching(rows[..j + 1], student, skill, misconception);
    MatchingGrows(rows, i + 1, j + 1, student, skill, misconception);
    SubsetCount(Items(m), Items(m'));
    LadderMonotone(|m|, |Items(m)|, |m'|, |Items(m')|);
    assert StateIsRecount(rows, i) && StateIsRecount(rows, j);
  }

  /** The earlier rows about the misconception of row `i`, and the row itself. */
  function Seen(rows: seq<EvidenceRow>, i: nat, k: nat): set<int>
    requires i < |rows| && k <= |rows|
  {
    set j | 0 <= j < k && rows[j].studentId == rows[i].studentId && rows[j].skill == rows[i].skill
            && rows[j].misconception == rows[i].misconception
  }

  function ItemsAt(rows: seq<EvidenceRow>, places: set<int>): set<string>
    requires forall j :: j in places ==> 0 <= j < |rows|
  {
    set j | j in places :: rows[j].itemId
  }

  lemma SeenSnoc(rows: seq<EvidenceRow>, i: nat, k: nat)
    requires i < |rows| && k < |rows|
    ensures Seen(rows, i, k + 1) ==
            if SameKey(rows[k], rows[i].studentId, rows[i].skill, rows[i].misconception)
            then Seen(rows, i, k) + {k} else Seen(rows, i, k)
  {
  }

  lemma ItemsAtSnoc(rows: seq<EvidenceRow>, places: set<int>, k: int)
    requires 0 <= k < |rows| && forall j :: j in places ==> 0 <= j < |rows|
    ensures ItemsAt(rows, places + {k}) == ItemsAt(rows, places) + {rows[k].itemId}
  {
  }

  lemma {:induction false} MatchingStep(rows: seq<EvidenceRow>, k: nat, student: string, skill: string,
                                        misconception: string)
    requires k < |rows|
    ensures var before := Matching(rows[..k], student, skill, misconception);
            Matching(rows[..k + 1], student, skill, misconception)
            == if SameKey(rows[k], student, skill, misconception) then before + [rows[k]] else before
  {
    assert rows[..k + 1][..k] == rows[..k];
  }

  lemma {:induction false} MatchingIsSeen(rows: seq<EvidenceRow>, i: nat, k: nat)
    requires i < |rows| && k <= |rows|
    ensures var m := Matching(rows[..k], rows[i].studentId, rows[i].skill, rows[i].misconception);
            |m| == |Seen(rows, i, k)| && Items(m) == ItemsAt(rows, Seen(rows, i, k))
  {
    if k > 0 {
      var student, skill, misconception := rows[i].studentId, rows[i].skill, rows[i].misconception;
      var before := Matching(rows[..k - 1], student, skill, misconception);
      MatchingIsSeen(rows, i, k - 1);
      MatchingStep(rows, k - 1, student, skill, misconception);
      SeenSnoc(rows, i, k - 1);
      if SameKey(rows[k - 1], student, skill, misconception) {
        assert Items(before + [rows[k - 1]]) == Items(before) + {rows[k - 1].itemId};
        ItemsAtSnoc(rows, Seen(rows, i, k - 1), k - 1);
      }
    } else {
      assert Seen(rows, i, 0) == {};
    }
  }

  /** The ladder in numbers: a misconception is confirmed by three observations on two items at
      least, suspected from the second observation on, and otherwise just observed. */
  lemma {:induction false} RecordedStateIs(rows: seq<EvidenceRow>, i: nat)
    requires Recounted(rows) && i < |rows|
    ensures var seen := Seen(rows, i, i + 1);
            && (rows[i].state == Confirmed <==> |seen| >= 3 && |ItemsAt(rows, seen)| >= 2)
            && (rows[i].state == Observed <==> |seen| == 1)
  {
    MatchingIsSeen(rows, i, i + 1);
    assert StateIsRecount(rows, i);
    assert i in Seen(rows, i, i + 1);
  }
}
