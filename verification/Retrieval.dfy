/** Reranking and the result loop of app/knowledge/local_backend.py, with the metadata check of
    app/knowledge/citations.py. */
module Retrieval {
  import opened Common
  import opened Ordering
  import Hierarchy

  datatype Weights = Weights(ftsRank: real, skillExact: real, subskillExact: real, prerequisiteHop: real,
                             difficultyProximity: real, contentType: real, recentlyShown: real, howToLesson: real)

  const WEIGHTS_V1 := Weights(1.0, 3.0, 2.0, 1.2, 0.8, 1.0, -1.0, 1.5)
  const HOW_TO_CUES := {"how", "solve", "method", "steps", "work", "out", "isolate", "eliminate", "model", "rate"}
  const FTS_TIE_BREAK_WINDOW := 5

  /** One row of knowledge_fts; `bodyTerms` are the lower-cased words of the body. */
  datatype Row = Row(contentId: string, version: int, contentType: string, targetSkill: string, targetSubskill: string,
                     audience: string, licenseId: string, licenseName: string, sourceId: string, reviewStatus: string,
                     body: string, bodyTerms: set<string>)

  /** A row with what the search adds to it. */
  datatype Candidate = Candidate(row: Row, targetDifficulty: Option<int>, ftsHit: bool, ftsPosition: nat, hop: nat)

  /** The caller's query; `terms` are its lower-cased words. */
  datatype Query = Query(terms: set<string>, skill: Option<string>, subskill: Option<string>,
                         misconception: Option<string>, difficulty: Option<int>, contentType: Option<string>,
                         recentlyShown: set<string>)

  type Scored = (Candidate, real)

  datatype Hit = Hit(candidate: Candidate, score: real, rank: nat)

  // ---- the search's annotations

  /** Position of `x` in `s`, or |s|. */
  function IndexOf(s: seq<string>, x: string): (k: nat)
    ensures k <= |s|
    ensures k < |s| <==> x in s
    ensures k < |s| ==> s[k] == x
  {
    if s == [] || s[0] == x then 0 else 1 + IndexOf(s[1..], x)
  }

  /** What the last loop of the search makes of a row, given the ordered full-text hits and the
      expanded skills. The record it builds never has a difficulty. */
  function Annotate(row: Row, hits: seq<string>, expanded: seq<string>): Candidate {
    var position := IndexOf(hits, row.contentId);
    var hop := IndexOf(expanded, row.targetSkill);
    Candidate(row, None, position < |hits|, if position < |hits| then position else 99,
              if hop < |expanded| then hop else 9)
  }

  function Annotated(rows: seq<Row>, hits: seq<string>, expanded: seq<string>): seq<Candidate> {
    Map((row: Row) => Annotate(row, hits, expanded), rows)
  }

  // ---- scoring

  function Max(a: real, b: real): real {
    if a >= b then a else b
  }

  function AbsDiff(a: int, b: int): int {
    if a >= b then a - b else b - a
  }

  /** Python's `part in whole` on strings. */
  predicate Occurs(part: string, whole: string) {
    exists i :: 0 <= i <= |whole| - |part| && OccursAt(part, whole, i)
  }

  predicate OccursAt(part: string, whole: string, i: nat)
    requires i + |part| <= |whole|
  {
    whole[i..i + |part|] == part
  }

  predicate TruthyInt(x: Option<int>) {
    x.Some? && x.value != 0
  }

  function When(b: bool, x: real): real {
    if b then x else 0.0
  }

  function MatchScore(w: Weights, q: Query, c: Candidate): real {
    When(c.ftsHit, w.ftsRank * Max(0.0, 1.0 - 0.25 * c.ftsPosition as real))
    + When(Truthy(q.skill) && c.row.targetSkill == q.skill.value, w.skillExact)
    + When(Truthy(q.subskill) && c.row.targetSubskill == q.subskill.value, w.subskillExact)
  }

  function DifficultyScore(w: Weights, q: Query, c: Candidate): real {
    if TruthyInt(q.difficulty) && TruthyInt(c.targetDifficulty) then
      w.difficultyProximity * Max(0.0, 1.0 - AbsDiff(c.targetDifficulty.value, q.difficulty.value) as real / 4.0)
    else 0.0
  }

  function TypeScore(w: Weights, q: Query, c: Candidate): real {
    When(Truthy(q.contentType) && c.row.contentType == q.contentType.value, w.contentType)
    + When(q.terms * HOW_TO_CUES != {} && c.row.contentType in {"micro_lesson", "worked_example"}, w.howToLesson)
    + When(c.row.contentId in q.recentlyShown, w.recentlyShown)
  }

  function ContextScore(w: Weights, q: Query, c: Candidate): real {
    var overlap := |q.terms * c.row.bodyTerms|;
    When(c.hop <= 2, w.prerequisiteHop * (1.0 - c.hop as real * 0.4))
    + When(Truthy(q.misconception) && Occurs(q.misconception.value, c.row.body), w.skillExact * 0.5)
    + (if overlap < 4 then 0.25 * overlap as real else 1.0)
  }

  function Score(w: Weights, q: Query, c: Candidate): real {
    MatchScore(w, q, c) + DifficultyScore(w, q, c) + TypeScore(w, q, c) + ContextScore(w, q, c)
  }

  // ---- the sort key

  function TieBreak(c: Candidate): nat {
    if c.ftsHit && c.ftsPosition <= FTS_TIE_BREAK_WINDOW then c.ftsPosition else 99
  }

  /** The tuple (-score, tie break, content id, version) compared left to right. */
  predicate RanksBefore(a: Scored, b: Scored) {
    if a.1 != b.1 then a.1 > b.1
    else if TieBreak(a.0) != TieBreak(b.0) then TieBreak(a.0) < TieBreak(b.0)
    else if a.0.row.contentId != b.0.row.contentId then StringLeq(a.0.row.contentId, b.0.row.contentId)
    else a.0.row.version <= b.0.row.version
  }

  lemma RankingIsPreorder()
    ensures TotalPreorder(RanksBefore)
  {
    StringOrder();
    forall a: Scored, b: Scored
      ensures RanksBefore(a, b) || RanksBefore(b, a)
    {
      assert StringLeq(a.0.row.contentId, b.0.row.contentId) || StringLeq(b.0.row.contentId, a.0.row.contentId);
    }
    forall a: Scored, b: Scored, c: Scored | RanksBefore(a, b) && RanksBefore(b, c)
      ensures RanksBefore(a, c)
    {
      RanksTransitive(a, b, c);
    }
  }

  lemma RanksTransitive(a: Scored, b: Scored, c: Scored)
    requires RanksBefore(a, b) && RanksBefore(b, c)
    requires TotalOrder(StringLeq)
    ensures RanksBefore(a, c)
  {
  }

  /** No two candidates share a content id, the primary key of the table. */
  ghost predicate DistinctIds(cs: seq<Candidate>) {
    forall a, b :: a in cs && b in cs && a.row.contentId == b.row.contentId ==> a == b
  }

  function WithScore(w: Weights, q: Query): Candidate -> Scored {
    c => (c, Score(w, q, c))
  }

  /** The ranked list the reranker returns. */
  function Ranking(w: Weights, q: Query, cs: seq<Candidate>): seq<Scored> {
    Sort(RanksBefore, Map(WithScore(w, q), cs))
  }

  lemma NoTiesAmongDistinct(w: Weights, q: Query, cs: seq<Candidate>)
    requires DistinctIds(cs)
    ensures NoTies(RanksBefore, Map(WithScore(w, q), cs))
  {
    StringOrder();
    var scored := Map(WithScore(w, q), cs);
    forall a, b | a in scored && b in scored && RanksBefore(a, b) && RanksBefore(b, a)
      ensures a == b
    {
      var i :| 0 <= i < |scored| && scored[i] == a;
      var j :| 0 <= j < |scored| && scored[j] == b;
      assert cs[i] in cs && cs[j] in cs;
    }
  }

  /** The order in which the database returns the candidates does not matter. */
  lemma RankingIsDeterministic(w: Weights, q: Query, cs: seq<Candidate>, ds: seq<Candidate>)
    requires DistinctIds(cs)
    requires multiset(cs) == multiset(ds)
    ensures Ranking(w, q, cs) == Ranking(w, q, ds)
  {
    RankingIsPreorder();
    NoTiesAmongDistinct(w, q, cs);
    MapPermutation(WithScore(w, q), cs, ds);
    SortForgetsOrder(RanksBefore, Map(WithScore(w, q), cs), Map(WithScore(w, q), ds));
  }

  /** Ranked best first, and every candidate once, with its own score. */
  lemma RankingIsSortedPermutation(w: Weights, q: Query, cs: seq<Candidate>)
    ensures Sorted(RanksBefore, Ranking(w, q, cs))
    ensures multiset(Ranking(w, q, cs)) == multiset(Map(WithScore(w, q), cs))
    ensures forall i, j :: 0 <= i < j < |Ranking(w, q, cs)| ==> Ranking(w, q, cs)[i].1 >= Ranking(w, q, cs)[j].1
  {
    RankingIsPreorder();
    SortSorted(RanksBefore, Map(WithScore(w, q), cs));
    var r := Ranking(w, q, cs);
    forall i, j | 0 <= i < j < |r|
      ensures r[i].1 >= r[j].1
    {
      assert RanksBefore(r[i], r[j]);
    }
  }

  /** `_rerank`: one pass that adds up the score of each record, then the sort. */
  method Rerank(w: Weights, q: Query, candidates: seq<Candidate>) returns (scored: seq<Scored>)
    ensures scored == Ranking(w, q, candidates)
  {
    scored := [];
    for k := 0 to |candidates|
      invariant scored == Map(WithScore(w, q), candidates[..k])
    {
      var record := candidates[k];
      var score := ScoreOf(w, q, record);
      scored := scored + [(record, score)];
      assert candidates[..k + 1] == candidates[..k] + [record];
    }
    assert candidates[..|candidates|] == candidates;
    scored := Sort(RanksBefore, scored);
  }

  /** The body of the scoring loop, addend by addend. */
  method ScoreOf(w: Weights, q: Query, record: Candidate) returns (score: real)
    ensures score == Score(w, q, record)
  {
    score := AddMatch(w, q, record);
    if TruthyInt(q.difficulty) && TruthyInt(record.targetDifficulty) {
      var distance := AbsDiff(record.targetDifficulty.value, q.difficulty.value);
      score := score + w.difficultyProximity * Max(0.0, 1.0 - distance as real / 4.0);
    }
    score := AddType(w, q, record, score);
    score := AddContext(w, q, record, score);
  }

  method AddMatch(w: Weights, q: Query, record: Candidate) returns (score: real)
    ensures score == MatchScore(w, q, record)
  {
    score := 0.0;
    if record.ftsHit {
      score := score + w.ftsRank * Max(0.0, 1.0 - 0.25 * record.ftsPosition as real);
    }
    if Truthy(q.skill) && record.row.targetSkill == q.skill.value {
      score := score + w.skillExact;
    }
    if Truthy(q.subskill) && record.row.targetSubskill == q.subskill.value {
      score := score + w.subskillExact;
    }
  }

  method AddType(w: Weights, q: Query, record: Candidate, start: real) returns (score: real)
    ensures score == start + TypeScore(w, q, record)
  {
    score := start;
    if Truthy(q.contentType) && record.row.contentType == q.contentType.value {
      score := score + w.contentType;
    }
    if q.terms * HOW_TO_CUES != {} && record.row.contentType in {"micro_lesson", "worked_example"} {
      score := score + w.howToLesson;
    }
    if record.row.contentId in q.recentlyShown {
      score := score + w.recentlyShown;
    }
  }

  method AddContext(w: Weights, q: Query, record: Candidate, start: real) returns (score: real)
    ensures score == start + ContextScore(w, q, record)
  {
    score := start;
    if record.hop <= 2 {
      score := score + w.prerequisiteHop * (1.0 - record.hop as real * 0.4);
    }
    if Truthy(q.misconception) && Occurs(q.misconception.value, record.row.body) {
      score := score + w.skillExact * 0.5;
    }
    if q.terms != {} {
      var overlap := |q.terms * record.row.bodyTerms|;
      score := score + 0.25 * (if overlap < 4 then overlap else 4) as real;
    }
  }

  // ---- the result loop

  /** `validate_metadata` finds nothing missing; a version is missing when it is 0. */
  predicate MetadataComplete(row: Row) {
    && row.contentId != "" && row.version != 0 && row.contentType != "" && row.targetSkill != "" && row.audience != ""
    && row.licenseId != "" && row.licenseName != "" && row.sourceId != "" && row.reviewStatus != "" && row.body != ""
    && (row.contentType == "question" ==> row.targetSubskill != "")
  }

  /** How many entries of the ranking the loop looks at. */
  function Window(scored: seq<Scored>, maxResults: int): (n: nat)
    ensures n <= |scored|
  {
    if maxResults <= 0 then 0 else if maxResults < |scored| then maxResults else |scored|
  }

  /** `hits` are the entries of the first `n` places with complete metadata, each with its place. */
  ghost predicate AreHits(hits: seq<Hit>, scored: seq<Scored>, n: nat)
    requires n <= |scored|
  {
    && (forall h :: h in hits ==>
        1 <= h.rank <= n && scored[h.rank - 1] == (h.candidate, h.score) && MetadataComplete(h.candidate.row))
    && (forall k :: 0 <= k < n && MetadataComplete(scored[k].0.row) ==> Hit(scored[k].0, scored[k].1, k + 1) in hits)
    && (forall i, j :: 0 <= i < j < |hits| ==> hits[i].rank < hits[j].rank)
  }

  lemma RankBounds(hits: seq<Hit>, scored: seq<Scored>, n: nat, i: nat)
    requires n <= |scored| && AreHits(hits, scored, n) && i < |hits|
    ensures 1 <= hits[i].rank <= n
  {
  }

  /** The three conditions leave one list. */
  lemma {:induction false} HitsAreUnique(a: seq<Hit>, b: seq<Hit>, scored: seq<Scored>, n: nat)
    requires n <= |scored|
    requires AreHits(a, scored, n) && AreHits(b, scored, n)
    ensures a == b
    decreases n
  {
    if n == 0 {
      if a != [] {
        RankBounds(a, scored, n, 0);
      }
      if b != [] {
        RankBounds(b, scored, n, 0);
      }
    } else {
      var (a', x) := SplitHits(a, scored, n);
      var (b', y) := SplitHits(b, scored, n);
      HitsAreUnique(a', b', scored, n - 1);
    }
  }

  /** The hits of the first n - 1 places, and the hit at place n if there is one. */
  ghost function SplitHits(hits: seq<Hit>, scored: seq<Scored>, n: nat): (r: (seq<Hit>, seq<Hit>))
    requires 0 < n <= |scored| && AreHits(hits, scored, n)
    ensures hits == r.0 + r.1 && AreHits(r.0, scored, n - 1)
    ensures r.1 == if MetadataComplete(scored[n - 1].0.row) then [Hit(scored[n - 1].0, scored[n - 1].1, n)] else []
  {
    if MetadataComplete(scored[n - 1].0.row) then
      LastHit(hits, scored, n);
      (hits[..|hits| - 1], hits[|hits| - 1..])
    else
      NoLastHit(hits, scored, n);
      assert hits == hits + [];
      (hits, [])
  }

  lemma LastHit(hits: seq<Hit>, scored: seq<Scored>, n: nat)
    requires 0 < n <= |scored| && AreHits(hits, scored, n) && MetadataComplete(scored[n - 1].0.row)
    ensures |hits| > 0 && hits[|hits| - 1] == Hit(scored[n - 1].0, scored[n - 1].1, n)
    ensures AreHits(hits[..|hits| - 1], scored, n - 1)
  {
  }

  lemma NoLastHit(hits: seq<Hit>, scored: seq<Scored>, n: nat)
    requires 0 < n <= |scored| && AreHits(hits, scored, n) && !MetadataComplete(scored[n - 1].0.row)
    ensures AreHits(hits, scored, n - 1)
  {
  }

  /** The loop over the ranking: it stops after `maxResults` places, counted before the
      incomplete entries are dropped. */
  method CollectHits(scored: seq<Scored>, maxResults: int) returns (results: seq<Hit>, explicitNoResult: bool)
    ensures AreHits(results, scored, Window(scored, maxResults))
    ensures explicitNoResult <==> NoneComplete(scored, Window(scored, maxResults))
  {
    results := [];
    var place := 0;
    while place < |scored|
      invariant 0 <= place <= Window(scored, maxResults)
      invariant AreHits(results, scored, place)
    {
      var rank := place + 1;
      if rank > maxResults {
        break;
      }
      var (record, score) := scored[place];
      if MetadataComplete(record.row) {
        AppendHit(results, scored, place);
        results := results + [Hit(record, score, rank)];
      } else {
        SkipHit(results, scored, place);
      }
      place := place + 1;
    }
    explicitNoResult := results == [];
    NoHitsIff(results, scored, place);
  }

  ghost predicate NoneComplete(scored: seq<Scored>, n: nat)
    requires n <= |scored|
  {
    forall k :: 0 <= k < n ==> !MetadataComplete(scored[k].0.row)
  }

  lemma NoHitsIff(hits: seq<Hit>, scored: seq<Scored>, n: nat)
    requires n <= |scored| && AreHits(hits, scored, n)
    ensures hits == [] <==> NoneComplete(scored, n)
  {
    if hits != [] {
      assert hits[0] in hits;
    }
  }

  lemma SkipHit(hits: seq<Hit>, scored: seq<Scored>, place: nat)
    requires place < |scored| && AreHits(hits, scored, place)
    requires !MetadataComplete(scored[place].0.row)
    ensures AreHits(hits, scored, place + 1)
  {
  }

  lemma AppendHit(hits: seq<Hit>, scored: seq<Scored>, place: nat)
    requires place < |scored| && AreHits(hits, scored, place)
    requires MetadataComplete(scored[place].0.row)
    ensures AreHits(hits + [Hit(scored[place].0, scored[place].1, place + 1)], scored, place + 1)
  {
  }

  /** The part of `retrieve` after the query: annotate, rerank, collect. */
  method Retrieve(w: Weights, q: Query, rows: seq<Row>, hits: seq<string>, expanded: seq<string>, maxResults: int)
    returns (results: seq<Hit>, explicitNoResult: bool)
    ensures var ranking := Ranking(w, q, Annotated(rows, hits, expanded));
            && AreHits(results, ranking, Window(ranking, maxResults))
            && (explicitNoResult <==> results == [])
  {
    var candidates := Annotated(rows, hits, expanded);
    var scored := Rerank(w, q, candidates);
    results, explicitNoResult := CollectHits(scored, maxResults);
    NoHitsIff(results, scored, Window(scored, maxResults));
  }

  /** What the search lets through for a query that names a skill: the filters of its statement. */
  predicate Searched(row: Row, audience: string, licenses: set<string>, expanded: seq<string>) {
    && row.audience == audience && row.reviewStatus == "published" && row.licenseId in licenses
    && row.sourceId !in {"gsm8k", "gsm8k_synthetic", "gsm8k_math"}
    && row.targetSkill in expanded
  }

  const SKILL := "integer_operations"
  const SKILL_QUERY := Query({}, Some(SKILL), None, None, None, None, {})
  const UNNAMED := Row("1", 1, "micro_lesson", SKILL, "", "student", "bridgesat_original", "", "s", "published", "text",
                       {})
  const NAMED := UNNAMED.(contentId := "2", licenseName := "BridgeSAT")

  lemma SkillScores(row: Row)
    requires row == UNNAMED || row == NAMED
    ensures Score(WEIGHTS_V1, SKILL_QUERY, Annotate(row, [], [SKILL])) == 4.2
  {
    var c := Annotate(row, [], [SKILL]);
    assert IndexOf([SKILL], SKILL) == 0 && c.hop == 0 && !c.ftsHit;
    assert SKILL_QUERY.terms * row.bodyTerms == {} && SKILL_QUERY.terms * HOW_TO_CUES == {};
    assert MatchScore(WEIGHTS_V1, SKILL_QUERY, c) == 3.0;
    assert ContextScore(WEIGHTS_V1, SKILL_QUERY, c) == 1.2;
  }

  /** When two scores tie, the content ids decide. */
  lemma TiedPair(w: Weights, q: Query, a: Candidate, b: Candidate)
    requires Score(w, q, a) == Score(w, q, b) && TieBreak(a) == TieBreak(b)
    requires !StringLeq(b.row.contentId, a.row.contentId)
    ensures Ranking(w, q, [b, a]) == [(a, Score(w, q, a)), (b, Score(w, q, b))]
  {
    var x, y := (b, Score(w, q, b)), (a, Score(w, q, a));
    assert Map(WithScore(w, q), [b, a]) == [x, y];
    RankingIsSortedPermutation(w, q, [b, a]);
    StringOrder();
    SortedPair(Ranking(w, q, [b, a]), x, y);
  }

  lemma UnnamedFirst()
    ensures Ranking(WEIGHTS_V1, SKILL_QUERY, Annotated([NAMED, UNNAMED], [], [SKILL]))
         == [(Annotate(UNNAMED, [], [SKILL]), 4.2), (Annotate(NAMED, [], [SKILL]), 4.2)]
  {
    var a, b := Annotate(UNNAMED, [], [SKILL]), Annotate(NAMED, [], [SKILL]);
    SkillScores(UNNAMED);
    SkillScores(NAMED);
    assert Annotated([NAMED, UNNAMED], [], [SKILL]) == [b, a];
    assert !StringLeq("2", "1");
    TiedPair(WEIGHTS_V1, SKILL_QUERY, a, b);
  }

  lemma SortedPair(r: seq<Scored>, x: Scored, y: Scored)
    requires Sorted(RanksBefore, r) && multiset(r) == multiset([x, y]) && !RanksBefore(x, y)
    ensures r == [y, x]
  {
    MultisetOfTwo(r, x, y);
    assert RanksBefore(r[0], r[1]);
  }

  lemma MultisetOfTwo<T>(s: seq<T>, x: T, y: T)
    requires multiset(s) == multiset([x, y])
    ensures s == [x, y] || s == [y, x]
  {
    assert |s| == |multiset(s)| == |multiset([x, y])| == 2;
    assert s == [s[0], s[1]];
    assert multiset(s) == multiset{s[0], s[1]};
    assert x in multiset(s) && y in multiset(s) && s[0] in multiset([x, y]) && s[1] in multiset([x, y]);
  }

  /** Two published rows that the search lets through for their own skill, which has no
      prerequisites: the one without a licence name ranks first, and with `max_results` 1 the
      answer is "explicit no-result" although the other one is complete. */
  lemma IncompleteHidesComplete(g: Hierarchy.Graph, results: seq<Hit>)
    requires Hierarchy.Prerequisites(g, SKILL) == []
    requires var ranking := Ranking(WEIGHTS_V1, SKILL_QUERY, Annotated([NAMED, UNNAMED], [], [SKILL]));
             AreHits(results, ranking, Window(ranking, 1))
    ensures Hierarchy.IsExpansion(g, SKILL, 2, [SKILL])
    ensures Searched(NAMED, "student", {"bridgesat_original"}, [SKILL])
    ensures Searched(UNNAMED, "student", {"bridgesat_original"}, [SKILL])
    ensures results == [] && MetadataComplete(NAMED)
  {
    Hierarchy.LoneSkill(g, SKILL, 2);
    UnnamedFirst();
    NoHitsIff(results, [(Annotate(UNNAMED, [], [SKILL]), 4.2), (Annotate(NAMED, [], [SKILL]), 4.2)], 1);
  }

  /** Two answers to one query over the same rows in any two orders are the same answer. */
  lemma RetrievalIsDeterministic(w: Weights, q: Query, rows: seq<Row>, rows': seq<Row>, hits: seq<string>,
                                 expanded: seq<string>, maxResults: int, results: seq<Hit>, results': seq<Hit>)
    requires forall a, b :: a in rows && b in rows && a.contentId == b.contentId ==> a == b
    requires multiset(rows) == multiset(rows')
    requires var ranking := Ranking(w, q, Annotated(rows, hits, expanded));
             AreHits(results, ranking, Window(ranking, maxResults))
    requires var ranking' := Ranking(w, q, Annotated(rows', hits, expanded));
             AreHits(results', ranking', Window(ranking', maxResults))
    ensures results == results'
  {
    var annotate := (row: Row) => Annotate(row, hits, expanded);
    var cs, ds := Annotated(rows, hits, expanded), Annotated(rows', hits, expanded);
    assert cs == Map(annotate, rows) && ds == Map(annotate, rows');
    assert DistinctIds(cs) by {
      forall a, b | a in cs && b in cs && a.row.contentId == b.row.contentId
        ensures a == b
      {
        var i :| 0 <= i < |cs| && cs[i] == a;
        var j :| 0 <= j < |cs| && cs[j] == b;
        assert rows[i] in rows && rows[j] in rows;
      }
    }
    MapPermutation(annotate, rows, rows');
    RankingIsDeterministic(w, q, cs, ds);
    var ranking := Ranking(w, q, cs);
    HitsAreUnique(results, results', ranking, Window(ranking, maxResults));
  }

  /** The records of `retrieve` carry no difficulty, so the requested difficulty never changes
      the ranking. */
  lemma RequestedDifficultyHasNoEffect(w: Weights, q: Query, difficulty: Option<int>, rows: seq<Row>,
                                       hits: seq<string>, expanded: seq<string>)
    ensures var cs := Annotated(rows, hits, expanded);
            Ranking(w, q, cs) == Ranking(w, q.(difficulty := difficulty), cs)
  {
    var cs := Annotated(rows, hits, expanded);
    var q' := q.(difficulty := difficulty);
    forall i | 0 <= i < |cs|
      ensures Score(w, q, cs[i]) == Score(w, q', cs[i])
    {
      assert DifficultyScore(w, q, cs[i]) == DifficultyScore(w, q', cs[i]) == 0.0;
    }
    assert Map(WithScore(w, q), cs) == Map(WithScore(w, q'), cs);
  }
}
