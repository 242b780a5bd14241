/** What the ranking of app/knowledge/local_backend.py rewards: for two candidates that are alike in
    everything else, who comes first and by how many points. */
module RankingLaws {
  import opened Common
  import opened Ordering
  import opened Retrieval

  /** Wherever the two stand in the ranking, `a` has so many points more than `b`, and with more
      points it stands first. Both do stand in it. */
  ghost predicate Leads(q: Query, cs: seq<Candidate>, a: Candidate, b: Candidate, points: real) {
    var r := Ranking(WEIGHTS_V1, q, cs);
    && (exists i :: 0 <= i < |r| && r[i].0 == a) && (exists j :: 0 <= j < |r| && r[j].0 == b)
    && forall i, j :: 0 <= i < |r| && 0 <= j < |r| && r[i].0 == a && r[j].0 == b ==>
         && r[i].1 - r[j].1 == points
         && (points > 0.0 ==> i < j)
         && (points < 0.0 ==> j < i)
  }

  lemma RankedWithScore(q: Query, cs: seq<Candidate>, x: Scored)
    requires x in Ranking(WEIGHTS_V1, q, cs)
    ensures x.1 == Score(WEIGHTS_V1, q, x.0)
  {
    var r, scored := Ranking(WEIGHTS_V1, q, cs), Map(WithScore(WEIGHTS_V1, q), cs);
    RankingIsSortedPermutation(WEIGHTS_V1, q, cs);
    assert x in multiset(r) && x in multiset(scored);
    var k :| 0 <= k < |scored| && scored[k] == x;
  }

  lemma Ranked(q: Query, cs: seq<Candidate>, c: Candidate)
    requires c in cs
    ensures exists i :: 0 <= i < |Ranking(WEIGHTS_V1, q, cs)| && Ranking(WEIGHTS_V1, q, cs)[i].0 == c
  {
    var r, scored := Ranking(WEIGHTS_V1, q, cs), Map(WithScore(WEIGHTS_V1, q), cs);
    RankingIsSortedPermutation(WEIGHTS_V1, q, cs);
    var k :| 0 <= k < |cs| && cs[k] == c;
    assert scored[k] in multiset(scored) && scored[k] in multiset(r);
    var i :| 0 <= i < |r| && r[i] == scored[k];
  }

  lemma ScoresDecide(q: Query, cs: seq<Candidate>, a: Candidate, b: Candidate, points: real)
    requires a in cs && b in cs && Score(WEIGHTS_V1, q, a) - Score(WEIGHTS_V1, q, b) == points
    ensures Leads(q, cs, a, b, points)
  {
    var r := Ranking(WEIGHTS_V1, q, cs);
    Ranked(q, cs, a);
    Ranked(q, cs, b);
    RankingIsSortedPermutation(WEIGHTS_V1, q, cs);
    forall i, j | 0 <= i < |r| && 0 <= j < |r| && r[i].0 == a && r[j].0 == b
      ensures r[i].1 == Score(WEIGHTS_V1, q, a) && r[j].1 == Score(WEIGHTS_V1, q, b)
    {
      RankedWithScore(q, cs, r[i]);
      RankedWithScore(q, cs, r[j]);
    }
  }

  /** The two rows are both on the list of recently shown content, or neither is. */
  predicate ShownAlike(q: Query, a: Candidate, b: Candidate) {
    a.row.contentId in q.recentlyShown <==> b.row.contentId in q.recentlyShown
  }

  // ---- full text

  /** An earlier full-text hit leads by a quarter of a point for each place, down to the fifth. */
  lemma EarlierHitLeads(q: Query, cs: seq<Candidate>, a: Candidate, b: Candidate)
    requires a in cs && b in cs && ShownAlike(q, a, b)
    requires b == a.(ftsPosition := b.ftsPosition, row := a.row.(contentId := b.row.contentId))
    requires a.ftsHit && a.ftsPosition < b.ftsPosition
    ensures a.ftsPosition < 4 ==>
              Leads(q, cs, a, b, 0.25 * ((if b.ftsPosition < 4 then b.ftsPosition else 4) - a.ftsPosition) as real)
    ensures a.ftsPosition >= 4 ==> Leads(q, cs, a, b, 0.0)
  {
    var last := if b.ftsPosition < 4 then b.ftsPosition else 4;
    var points := if a.ftsPosition < 4 then 0.25 * (last - a.ftsPosition) as real else 0.0;
    assert Score(WEIGHTS_V1, q, a) - Score(WEIGHTS_V1, q, b) == points by {
      assert DifficultyScore(WEIGHTS_V1, q, a) == DifficultyScore(WEIGHTS_V1, q, b);
      assert TypeScore(WEIGHTS_V1, q, a) == TypeScore(WEIGHTS_V1, q, b);
      assert ContextScore(WEIGHTS_V1, q, a) == ContextScore(WEIGHTS_V1, q, b);
    }
    ScoresDecide(q, cs, a, b, points);
  }

  /** A hit leads a miss by one point, less a quarter for each place. */
  lemma HitLeadsMiss(q: Query, cs: seq<Candidate>, a: Candidate, b: Candidate)
    requires a in cs && b in cs && ShownAlike(q, a, b)
    requires b == a.(ftsHit := false, ftsPosition := b.ftsPosition, row := a.row.(contentId := b.row.contentId))
    requires a.ftsHit
    ensures Leads(q, cs, a, b, if a.ftsPosition < 4 then 1.0 - 0.25 * a.ftsPosition as real else 0.0)
  {
    var points := if a.ftsPosition < 4 then 1.0 - 0.25 * a.ftsPosition as real else 0.0;
    assert Score(WEIGHTS_V1, q, a) - Score(WEIGHTS_V1, q, b) == points by {
      assert DifficultyScore(WEIGHTS_V1, q, a) == DifficultyScore(WEIGHTS_V1, q, b);
      assert TypeScore(WEIGHTS_V1, q, a) == TypeScore(WEIGHTS_V1, q, b);
      assert ContextScore(WEIGHTS_V1, q, a) == ContextScore(WEIGHTS_V1, q, b);
    }
    ScoresDecide(q, cs, a, b, points);
  }

  // ---- metadata

  lemma ExactSkillLeads(q: Query, cs: seq<Candidate>, a: Candidate, b: Candidate)
    requires a in cs && b in cs && ShownAlike(q, a, b)
    requires b == a.(row := a.row.(contentId := b.row.contentId, targetSkill := b.row.targetSkill))
    requires q.skill == Some(a.row.targetSkill) && a.row.targetSkill != "" && b.row.targetSkill != a.row.targetSkill
    ensures Leads(q, cs, a, b, 3.0)
  {
    var points := 3.0;
    assert Score(WEIGHTS_V1, q, a) - Score(WEIGHTS_V1, q, b) == points by {
      assert DifficultyScore(WEIGHTS_V1, q, a) == DifficultyScore(WEIGHTS_V1, q, b);
      assert TypeScore(WEIGHTS_V1, q, a) == TypeScore(WEIGHTS_V1, q, b);
      assert ContextScore(WEIGHTS_V1, q, a) == ContextScore(WEIGHTS_V1, q, b);
    }
    ScoresDecide(q, cs, a, b, points);
  }

  lemma ExactSubskillLeads(q: Query, cs: seq<Candidate>, a: Candidate, b: Candidate)
    requires a in cs && b in cs && ShownAlike(q, a, b)
    requires b == a.(row := a.row.(contentId := b.row.contentId, targetSubskill := b.row.targetSubskill))
    requires q.subskill == Some(a.row.targetSubskill) && a.row.targetSubskill != ""
    requires b.row.targetSubskill != a.row.targetSubskill
    ensures Leads(q, cs, a, b, 2.0)
  {
    var points := 2.0;
    assert Score(WEIGHTS_V1, q, a) - Score(WEIGHTS_V1, q, b) == points by {
      assert DifficultyScore(WEIGHTS_V1, q, a) == DifficultyScore(WEIGHTS_V1, q, b);
      assert TypeScore(WEIGHTS_V1, q, a) == TypeScore(WEIGHTS_V1, q, b);
      assert ContextScore(WEIGHTS_V1, q, a) == ContextScore(WEIGHTS_V1, q, b);
    }
    ScoresDecide(q, cs, a, b, points);
  }

  /** The query has one of the cue words of a how-to question. */
  predicate AsksHow(q: Query) {
    || "how" in q.terms || "solve" in q.terms || "method" in q.terms || "steps" in q.terms || "work" in q.terms
    || "out" in q.terms || "isolate" in q.terms || "eliminate" in q.terms || "model" in q.terms || "rate" in q.terms
  }

  predicate Teaches(contentType: string) {
    contentType == "micro_lesson" || contentType == "worked_example"
  }

  lemma CuesAre(q: Query)
    ensures q.terms * HOW_TO_CUES != {} <==> AsksHow(q)
  {
    if AsksHow(q) {
      assert exists t :: t in q.terms && t in HOW_TO_CUES;
      var t :| t in q.terms && t in HOW_TO_CUES;
      assert t in q.terms * HOW_TO_CUES;
    }
    if q.terms * HOW_TO_CUES != {} {
      var t :| t in q.terms * HOW_TO_CUES;
    }
  }

  /** The requested content type counts one point, and a lesson or worked example one and a half
      when the query asks how. */
  lemma ContentTypesCompared(q: Query, cs: seq<Candidate>, a: Candidate, b: Candidate)
    requires a in cs && b in cs && ShownAlike(q, a, b)
    requires b == a.(row := a.row.(contentId := b.row.contentId, contentType := b.row.contentType))
    ensures var asked := q.contentType.Some? && q.contentType.value != "";
            Leads(q, cs, a, b,
                  (if asked && a.row.contentType == q.contentType.value then 1.0 else 0.0)
                  - (if asked && b.row.contentType == q.contentType.value then 1.0 else 0.0)
                  + (if AsksHow(q) && Teaches(a.row.contentType) then 1.5 else 0.0)
                  - (if AsksHow(q) && Teaches(b.row.contentType) then 1.5 else 0.0))
  {
    CuesAre(q);
    var asked := q.contentType.Some? && q.contentType.value != "";
    var points := (if asked && a.row.contentType == q.contentType.value then 1.0 else 0.0)
        - (if asked && b.row.contentType == q.contentType.value then 1.0 else 0.0)
        + (if AsksHow(q) && Teaches(a.row.contentType) then 1.5 else 0.0)
        - (if AsksHow(q) && Teaches(b.row.contentType) then 1.5 else 0.0);
    assert Score(WEIGHTS_V1, q, a) - Score(WEIGHTS_V1, q, b) == points by {
      assert MatchScore(WEIGHTS_V1, q, a) == MatchScore(WEIGHTS_V1, q, b);
      assert DifficultyScore(WEIGHTS_V1, q, a) == DifficultyScore(WEIGHTS_V1, q, b);
      assert ContextScore(WEIGHTS_V1, q, a) == ContextScore(WEIGHTS_V1, q, b);
    }
    ScoresDecide(q, cs, a, b, points);
  }

  lemma RecentlyShownTrails(q: Query, cs: seq<Candidate>, a: Candidate, b: Candidate)
    requires a in cs && b in cs
    requires b == a.(row := a.row.(contentId := b.row.contentId))
    requires a.row.contentId !in q.recentlyShown && b.row.contentId in q.recentlyShown
    ensures Leads(q, cs, a, b, 1.0)
  {
    var points := 1.0;
    assert Score(WEIGHTS_V1, q, a) - Score(WEIGHTS_V1, q, b) == points by {
      assert MatchScore(WEIGHTS_V1, q, a) == MatchScore(WEIGHTS_V1, q, b);
      assert DifficultyScore(WEIGHTS_V1, q, a) == DifficultyScore(WEIGHTS_V1, q, b);
      assert ContextScore(WEIGHTS_V1, q, a) == ContextScore(WEIGHTS_V1, q, b);
    }
    ScoresDecide(q, cs, a, b, points);
  }

  /** The part of the difficulty points that is left over a distance: a quarter less for each step. */
  function Proximity(distance: nat): real {
    if distance <= 4 then 1.0 - distance as real / 4.0 else 0.0
  }

  function Distance(a: int, b: int): nat {
    if a >= b then a - b else b - a
  }

  /** A record with a difficulty gets 0.8 points for the requested one, a quarter less for each step
      away; for records of the search, which have none, it makes no difference. */
  lemma DifficultiesCompared(q: Query, cs: seq<Candidate>, a: Candidate, b: Candidate, wanted: int, x: int, y: int)
    requires a in cs && b in cs && ShownAlike(q, a, b)
    requires b == a.(targetDifficulty := Some(y), row := a.row.(contentId := b.row.contentId))
    requires a.targetDifficulty == Some(x) && q.difficulty == Some(wanted) && wanted != 0 && x != 0 && y != 0
    ensures Leads(q, cs, a, b, 0.8 * (Proximity(Distance(x, wanted)) - Proximity(Distance(y, wanted))))
  {
    var points := 0.8 * (Proximity(Distance(x, wanted)) - Proximity(Distance(y, wanted)));
    assert Score(WEIGHTS_V1, q, a) - Score(WEIGHTS_V1, q, b) == points by {
      assert MatchScore(WEIGHTS_V1, q, a) == MatchScore(WEIGHTS_V1, q, b);
      assert TypeScore(WEIGHTS_V1, q, a) == TypeScore(WEIGHTS_V1, q, b);
      assert ContextScore(WEIGHTS_V1, q, a) == ContextScore(WEIGHTS_V1, q, b);
    }
    ScoresDecide(q, cs, a, b, points);
  }

  // ---- context

  /** The text of the misconception stands somewhere in the body. */
  ghost predicate Mentions(body: string, misconception: string) {
    exists before, after :: body == before + misconception + after
  }

  lemma MentionsIsOccurs(body: string, misconception: string)
    ensures Mentions(body, misconception) <==> Occurs(misconception, body)
  {
    if Mentions(body, misconception) {
      var before, after :| body == before + misconception + after;
      assert body[|before|..|before| + |misconception|] == misconception;
      assert OccursAt(misconception, body, |before|);
    }
    if Occurs(misconception, body) {
      var i :| 0 <= i <= |body| - |misconception| && OccursAt(misconception, body, i);
      assert body == body[..i] + misconception + body[i + |misconception|..];
    }
  }

  lemma MisconceptionLeads(q: Query, cs: seq<Candidate>, a: Candidate, b: Candidate)
    requires a in cs && b in cs && ShownAlike(q, a, b)
    requires b == a.(row := a.row.(contentId := b.row.contentId, body := b.row.body))
    requires q.misconception.Some? && q.misconception.value != ""
    requires Mentions(a.row.body, q.misconception.value) && !Mentions(b.row.body, q.misconception.value)
    ensures Leads(q, cs, a, b, 1.5)
  {
    MentionsIsOccurs(a.row.body, q.misconception.value);
    MentionsIsOccurs(b.row.body, q.misconception.value);
    var points := 1.5;
    assert Score(WEIGHTS_V1, q, a) - Score(WEIGHTS_V1, q, b) == points by {
      assert MatchScore(WEIGHTS_V1, q, a) == MatchScore(WEIGHTS_V1, q, b);
      assert DifficultyScore(WEIGHTS_V1, q, a) == DifficultyScore(WEIGHTS_V1, q, b);
      assert TypeScore(WEIGHTS_V1, q, a) == TypeScore(WEIGHTS_V1, q, b);
    }
    ScoresDecide(q, cs, a, b, points);
  }

  /** A candidate within two hops leads one further away: by 0.48 for each hop, and by all of its
      1.2 points less 0.48 a hop over one that is out of reach. */
  lemma NearerHopLeads(q: Query, cs: seq<Candidate>, a: Candidate, b: Candidate)
    requires a in cs && b in cs && ShownAlike(q, a, b)
    requires b == a.(hop := b.hop, row := a.row.(contentId := b.row.contentId))
    requires a.hop < b.hop && a.hop <= 2
    ensures b.hop <= 2 ==> Leads(q, cs, a, b, 0.48 * (b.hop - a.hop) as real)
    ensures b.hop > 2 ==> Leads(q, cs, a, b, 1.2 - 0.48 * a.hop as real)
  {
    var points := if b.hop <= 2 then 0.48 * (b.hop - a.hop) as real else 1.2 - 0.48 * a.hop as real;
    assert Score(WEIGHTS_V1, q, a) - Score(WEIGHTS_V1, q, b) == points by {
      assert MatchScore(WEIGHTS_V1, q, a) == MatchScore(WEIGHTS_V1, q, b);
      assert DifficultyScore(WEIGHTS_V1, q, a) == DifficultyScore(WEIGHTS_V1, q, b);
      assert TypeScore(WEIGHTS_V1, q, a) == TypeScore(WEIGHTS_V1, q, b);
    }
    ScoresDecide(q, cs, a, b, points);
  }

  function AtMostFour(n: nat): nat {
    if n <= 4 then n else 4
  }

  /** Every word that query and body share, up to four of them, is a quarter of a point. */
  lemma SharedWordsCompared(q: Query, cs: seq<Candidate>, a: Candidate, b: Candidate)
    requires a in cs && b in cs && ShownAlike(q, a, b)
    requires b == a.(row := a.row.(contentId := b.row.contentId, bodyTerms := b.row.bodyTerms))
    ensures Leads(q, cs, a, b, 0.25 * (AtMostFour(|q.terms * a.row.bodyTerms|) as real
                                       - AtMostFour(|q.terms * b.row.bodyTerms|) as real))
  {
    var points := 0.25 * (AtMostFour(|q.terms * a.row.bodyTerms|) as real
                             - AtMostFour(|q.terms * b.row.bodyTerms|) as real);
    assert Score(WEIGHTS_V1, q, a) - Score(WEIGHTS_V1, q, b) == points by {
      assert MatchScore(WEIGHTS_V1, q, a) == MatchScore(WEIGHTS_V1, q, b);
      assert DifficultyScore(WEIGHTS_V1, q, a) == DifficultyScore(WEIGHTS_V1, q, b);
      assert TypeScore(WEIGHTS_V1, q, a) == TypeScore(WEIGHTS_V1, q, b);
    }
    ScoresDecide(q, cs, a, b, points);
  }

  // ---- ties

  /** The place of a full-text hit, if it is one of the first six. */
  function Place(c: Candidate): nat {
    if c.ftsHit && c.ftsPosition <= 5 then c.ftsPosition else 99
  }

  /** Of two candidates with equal scores the lower full-text place comes first, then the smaller
      content id, then the older version. */
  lemma TiesAreBroken(q: Query, cs: seq<Candidate>, i: nat, j: nat)
    requires i < j < |Ranking(WEIGHTS_V1, q, cs)|
    requires Ranking(WEIGHTS_V1, q, cs)[i].1 == Ranking(WEIGHTS_V1, q, cs)[j].1
    ensures var a, b := Ranking(WEIGHTS_V1, q, cs)[i].0, Ranking(WEIGHTS_V1, q, cs)[j].0;
            || Place(a) < Place(b)
            || (Place(a) == Place(b) && a.row.contentId != b.row.contentId
                && StringLeq(a.row.contentId, b.row.contentId))
            || (Place(a) == Place(b) && a.row.contentId == b.row.contentId && a.row.version <= b.row.version)
  {
    RankingIsSortedPermutation(WEIGHTS_V1, q, cs);
    assert RanksBefore(Ranking(WEIGHTS_V1, q, cs)[i], Ranking(WEIGHTS_V1, q, cs)[j]);
  }

  // ---- the two ends of a retrieval

  lemma {:induction false} IndexIsFirst(s: seq<string>, x: string)
    ensures x !in s[..IndexOf(s, x)]
  {
    if s != [] && s[0] != x {
      IndexIsFirst(s[1..], x);
      assert s[..IndexOf(s, x)] == [s[0]] + s[1..][..IndexOf(s[1..], x)];
    }
  }

  /** What a candidate knows of the search: whether and at which place it is a full-text hit, and at
      which place its skill stands among the expanded ones. */
  lemma AnnotatedIs(rows: seq<Row>, hits: seq<string>, expanded: seq<string>, k: nat)
    requires k < |rows|
    ensures |Annotated(rows, hits, expanded)| == |rows|
    ensures var c, id, skill := Annotated(rows, hits, expanded)[k], rows[k].contentId, rows[k].targetSkill;
            && c.row == rows[k] && c.targetDifficulty == None
            && (c.ftsHit <==> id in hits)
            && (if id in hits then c.ftsPosition < |hits| && hits[c.ftsPosition] == id && id !in hits[..c.ftsPosition]
                else c.ftsPosition == 99)
            && (if skill in expanded then c.hop < |expanded| && expanded[c.hop] == skill && skill !in expanded[..c.hop]
                else c.hop == 9)
  {
    IndexIsFirst(hits, rows[k].contentId);
    IndexIsFirst(expanded, rows[k].targetSkill);
  }

  /** Nothing that a citation needs is missing. */
  predicate Citable(row: Row) {
    && "" !in {row.contentId, row.contentType, row.targetSkill, row.audience, row.licenseId, row.licenseName,
               row.sourceId, row.reviewStatus, row.body}
    && row.version != 0
    && !(row.contentType == "question" && row.targetSubskill == "")
  }

  /** An answer lists the citable ones among the first `maxResults` places of the ranking, each with
      its candidate, its score and its place, and nothing else. */
  lemma AnswerIs(scored: seq<Scored>, maxResults: int, results: seq<Hit>)
    requires AreHits(results, scored, Window(scored, maxResults))
    ensures forall h: Hit :: h in results <==>
              && 1 <= h.rank <= maxResults && h.rank <= |scored|
              && scored[h.rank - 1] == (h.candidate, h.score) && Citable(h.candidate.row)
    ensures forall i, j :: 0 <= i < j < |results| ==> results[i].rank < results[j].rank
  {
    forall row
      ensures Citable(row) <==> MetadataComplete(row)
    {
    }
    forall h: Hit | 1 <= h.rank <= maxResults && h.rank <= |scored| && scored[h.rank - 1] == (h.candidate, h.score)
               && Citable(h.candidate.row)
      ensures h in results
    {
      assert MetadataComplete(scored[h.rank - 1].0.row);
    }
  }
}
