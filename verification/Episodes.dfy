/** Runtime episodes of app/memory/episode_builder.py: an intervention waits as a candidate for
    one transfer answer, is then resolved once and for all, and reaches the memory outbox
    exactly if it was validated. */
module Episodes {
  import opened Common
  import opened Ordering

  datatype EpisodeStatus = Candidate | Validated | InsufficientOutcome

  datatype OutcomeRecord = OutcomeRecord(
    correct: bool, hintLevel: int, outcomeContentId: Option<string>, teachingContentId: string,
    triggerContentId: string, differentItem: bool, pendingTransfer: bool)

  datatype Episode = Episode(
    episodeId: string, studentId: string, sessionId: string, skill: string, misconception: Option<string>,
    intervention: string, outcome: OutcomeRecord, effectiveness: real, evidenceEventIds: seq<string>,
    confidence: real, status: EpisodeStatus, createdAt: int)

  datatype EpisodeError = StudentNotActive | DuplicateEpisodeId

  const EPISODE_MIN_CONFIDENCE := 0.50

  /** `outcome_component_score` of app/domain/memory.py. */
  function OutcomeComponentScore(correct: bool, hintLevel: int): real {
    if !correct then 0.0
    else if hintLevel == 0 then 1.0
    else if hintLevel == 1 then 0.8
    else if hintLevel == 2 then 0.5
    else 0.2
  }

  /** A transfer answer that proves the intervention worked. */
  predicate Convincing(correct: bool, hintLevel: int) {
    correct && 0 <= hintLevel <= 2
  }

  /** The transfer answer of one call of `complete_runtime_candidate`. */
  datatype Transfer = Transfer(
    studentId: string, sessionId: string, skill: string, eventId: string, contentId: string, correct: bool,
    hintLevel: int)

  /** The candidates that an answer may resolve. */
  predicate Awaits(e: Episode, t: Transfer) {
    && e.studentId == t.studentId && e.sessionId == t.sessionId && e.skill == t.skill
    && e.status == Candidate
    && e.outcome.triggerContentId != t.contentId
  }

  /** The updated row before validation. */
  function Completed(e: Episode, t: Transfer): Episode {
    var score := OutcomeComponentScore(t.correct, t.hintLevel);
    e.(outcome := OutcomeRecord(t.correct, t.hintLevel, Some(t.contentId), e.outcome.teachingContentId,
                                e.outcome.triggerContentId, true, false),
       effectiveness := score,
       evidenceEventIds := e.evidenceEventIds + [t.eventId],
       confidence := score)
  }

  /** The verdict of `validate` on a candidate. */
  function Verdict(e: Episode): EpisodeStatus {
    if e.outcome.differentItem && e.intervention != "" && e.evidenceEventIds != []
       && e.confidence >= EPISODE_MIN_CONFIDENCE
    then Validated else InsufficientOutcome
  }

  datatype Tables = Tables(episodes: map<string, Episode>, upserts: map<string, Episode>)

  // ---- the invariant

  /** A candidate has only its trigger; a resolved episode carries the answer that resolved it,
      and is validated exactly if that answer is convincing. */
  ghost predicate Faithful(e: Episode) {
    if e.status == Candidate then
      && e.outcome.pendingTransfer && e.outcome.outcomeContentId.None? && |e.evidenceEventIds| == 1
    else
      && !e.outcome.pendingTransfer && e.outcome.outcomeContentId.Some?
      && e.outcome.outcomeContentId.value != e.outcome.triggerContentId
      && |e.evidenceEventIds| == 2
      && (e.status == Validated <==> Convincing(e.outcome.correct, e.outcome.hintLevel) && e.intervention != "")
  }

  /** The outbox holds one upsert for each validated episode, with its final contents. */
  ghost predicate Inv(t: Tables) {
    && (forall id :: id in t.episodes ==> t.episodes[id].episodeId == id && Faithful(t.episodes[id]))
    && (forall id :: id in t.upserts <==> id in t.episodes && t.episodes[id].status == Validated)
    && (forall id :: id in t.upserts ==> t.upserts[id] == t.episodes[id])
  }

  // ---- the two transactions, declaratively

  ghost predicate Starts(before: Tables, after: Tables, e: Episode) {
    && e.episodeId !in before.episodes && e.status == Candidate && Faithful(e)
    && after == before.(episodes := before.episodes[e.episodeId := e])
  }

  /** `e` is a newest episode that awaits the answer. */
  ghost predicate NewestAwaiting(episodes: map<string, Episode>, e: Episode, t: Transfer) {
    && e.episodeId in episodes && episodes[e.episodeId] == e && Awaits(e, t)
    && forall id :: id in episodes && Awaits(episodes[id], t) ==> episodes[id].createdAt <= e.createdAt
  }

  ghost predicate Resolves(before: Tables, after: Tables, e: Episode, t: Transfer) {
    && NewestAwaiting(before.episodes, e, t)
    && var status :=
         if Convincing(t.correct, t.hintLevel) && e.intervention != "" then Validated else InsufficientOutcome;
    && var resolved := Completed(e, t).(status := status);
    && after.episodes == before.episodes[e.episodeId := resolved]
    && after.upserts == if resolved.status == Validated then before.upserts[e.episodeId := resolved] else before.upserts
  }

  /** A resolution in plain terms: the answer is to another item than the trigger, in the same session
      and skill; it becomes the outcome and the second evidence; effectiveness and confidence are 1 for
      a right answer without hints, 0.8, 0.5 and 0.2 with one, two and more, and 0 for a wrong one; and
      the episode is validated exactly from 0.5 on. */
  lemma ResolutionIs(before: Tables, after: Tables, e: Episode, t: Transfer)
    requires Resolves(before, after, e, t)
    ensures e.status == Candidate && e.studentId == t.studentId && e.sessionId == t.sessionId && e.skill == t.skill
    ensures e.outcome.triggerContentId != t.contentId
    ensures e.episodeId in after.episodes
    ensures var score := if !t.correct then 0.0 else if t.hintLevel == 0 then 1.0 else if t.hintLevel == 1 then 0.8
                         else if t.hintLevel == 2 then 0.5 else 0.2;
            after.episodes[e.episodeId]
            == Episode(e.episodeId, e.studentId, e.sessionId, e.skill, e.misconception, e.intervention,
                       OutcomeRecord(t.correct, t.hintLevel, Some(t.contentId), e.outcome.teachingContentId,
                                     e.outcome.triggerContentId, true, false),
                       score, e.evidenceEventIds + [t.eventId], score,
                       if score >= 0.5 && e.intervention != "" then Validated else InsufficientOutcome, e.createdAt)
  {
  }

  ghost predicate Step(before: Tables, after: Tables) {
    || before == after
    || (exists e :: Starts(before, after, e))
    || (exists e, t :: Resolves(before, after, e, t))
  }

  lemma StartKeepsInv(before: Tables, after: Tables, e: Episode)
    requires Inv(before) && Starts(before, after, e)
    ensures Inv(after)
  {
  }

  lemma ResolveKeepsInv(before: Tables, after: Tables, e: Episode, t: Transfer)
    requires Inv(before) && Resolves(before, after, e, t)
    ensures Inv(after)
  {
    var resolved := after.episodes[e.episodeId];
    assert Faithful(e);
    assert Faithful(resolved);
    forall id
      ensures id in after.upserts <==> id in after.episodes && after.episodes[id].status == Validated
      ensures id in after.upserts ==> after.upserts[id] == after.episodes[id]
    {
      assert id in before.upserts <==> id in before.episodes && before.episodes[id].status == Validated;
    }
  }

  lemma StepKeepsInv(before: Tables, after: Tables)
    requires Inv(before) && Step(before, after)
    ensures Inv(after)
  {
    if e :| Starts(before, after, e) {
      StartKeepsInv(before, after, e);
    } else if e, t :| Resolves(before, after, e, t) {
      ResolveKeepsInv(before, after, e, t);
    }
  }

  /** What one step leaves alone. */
  ghost predicate TouchesOneCandidate(before: Tables, after: Tables) {
    && (forall id :: id in before.episodes ==> id in after.episodes)
    && (forall id :: id in before.episodes && before.episodes[id].status != Candidate ==>
        after.episodes[id] == before.episodes[id])
    && (forall i, j :: i in before.episodes && j in before.episodes ==>
                         i == j || after.episodes[i] == before.episodes[i] || after.episodes[j] == before.episodes[j])
    && (forall id :: id in before.upserts ==> id in after.upserts && after.upserts[id] == before.upserts[id])
  }

  lemma ResolveTouchesOne(before: Tables, after: Tables, e: Episode, t: Transfer)
    requires Inv(before) && Resolves(before, after, e, t)
    ensures TouchesOneCandidate(before, after)
  {
  }

  /** One step never touches a resolved episode, and resolves at most one candidate. */
  lemma StepResolvesOne(before: Tables, after: Tables)
    requires Inv(before) && Step(before, after)
    ensures TouchesOneCandidate(before, after)
  {
    if e, t :| Resolves(before, after, e, t) {
      ResolveTouchesOne(before, after, e, t);
    }
  }

  ghost predicate Run(ts: seq<Tables>) {
    |ts| > 0 && ts[0] == Tables(map[], map[]) && forall i :: 0 <= i < |ts| - 1 ==> Step(ts[i], ts[i + 1])
  }

  lemma {:induction false} RunKeepsInv(ts: seq<Tables>, i: nat)
    requires Run(ts) && i < |ts|
    ensures Inv(ts[i])
  {
    if i > 0 {
      RunKeepsInv(ts, i - 1);
      assert Step(ts[i - 1], ts[i - 1 + 1]);
      StepKeepsInv(ts[i - 1], ts[i]);
    }
  }

  /** Over any interleaving of starts and completions: a resolved episode is never a candidate
      again and never changes, and its upsert, once in the outbox, stays as it was. */
  lemma {:induction false} ResolutionIsFinal(ts: seq<Tables>, i: nat, j: nat, id: string)
    requires Run(ts) && i <= j < |ts|
    requires id in ts[i].episodes && ts[i].episodes[id].status != Candidate
    ensures id in ts[j].episodes && ts[j].episodes[id] == ts[i].episodes[id]
    ensures id in ts[j].upserts <==> ts[i].episodes[id].status == Validated
    decreases j - i
  {
    RunKeepsInv(ts, i);
    if i < j {
      assert Step(ts[i], ts[i + 1]);
      StepResolvesOne(ts[i], ts[i + 1]);
      ResolutionIsFinal(ts, i + 1, j, id);
    }
  }

  // ---- the builder

  predicate NewerFirst(a: (int, string), b: (int, string)) {
    a.0 > b.0 || (a.0 == b.0 && StringLeq(a.1, b.1))
  }

  lemma NewerFirstTotal()
    ensures TotalOrder(NewerFirst)
  {
    StringOrder();
  }

  class EpisodeBuilder {
    var episodes: map<string, Episode>
    var upserts: map<string, Episode>
    var activeStudents: set<string>

    constructor (activeStudents: set<string>)
      ensures Valid() && State() == Tables(map[], map[]) && this.activeStudents == activeStudents
    {
      episodes, upserts, this.activeStudents := map[], map[], activeStudents;
    }

    ghost function State(): Tables
      reads this
    {
      Tables(episodes, upserts)
    }

    ghost predicate Valid()
      reads this
    {
      Inv(State())
    }

    method StartRuntimeCandidate(episodeId: string, studentId: string, sessionId: string, skill: string,
                                 misconception: Option<string>, intervention: string, teachingContentId: string,
                                 triggerContentId: string, evidenceEventId: string, now: int)
      returns (r: Result<Episode, EpisodeError>)
      requires Valid()
      modifies this`episodes
      ensures Valid()
      ensures r.Ok? <==> studentId in activeStudents && episodeId !in old(episodes)
      ensures r.Ok? ==>
                && Starts(old(State()), State(), r.value)
                && r.value.episodeId == episodeId && r.value.studentId == studentId && r.value.sessionId == sessionId
                && r.value.skill == skill && r.value.intervention == intervention && r.value.createdAt == now
                && r.value.misconception == misconception && r.value.evidenceEventIds == [evidenceEventId]
                && r.value.outcome
                   == OutcomeRecord(false, 0, None, teachingContentId, triggerContentId, false, true)
                && r.value.effectiveness == r.value.confidence == 0.0 && r.value.status == Candidate
      ensures r.Err? ==> State() == old(State())
    {
      var episode := Episode(episodeId, studentId, sessionId, skill, misconception, intervention,
                             OutcomeRecord(false, 0, None, teachingContentId, triggerContentId, false, true),
                             0.0, [evidenceEventId], 0.0, Candidate, now);
      if studentId !in activeStudents {
        return Err(StudentNotActive);
      }
      if episodeId in episodes {
        return Err(DuplicateEpisodeId);
      }
      episodes := episodes[episodeId := episode];
      r := Ok(episode);
    }

    /** `SELECT ... WHERE ... status = 'candidate' ORDER BY created_at DESC`. */
    method SelectCandidates(t: Transfer) returns (rows: seq<(int, string)>)
      requires Valid()
      ensures Sorted(NewerFirst, rows)
      ensures forall id :: (exists i :: 0 <= i < |rows| && rows[i].1 == id) <==>
                           id in episodes && episodes[id].studentId == t.studentId
                           && episodes[id].sessionId == t.sessionId
                           && episodes[id].skill == t.skill && episodes[id].status == Candidate
      ensures forall i :: 0 <= i < |rows| ==> rows[i].1 in episodes && rows[i].0 == episodes[rows[i].1].createdAt
    {
      var found: seq<(int, string)> := [];
      var todo := episodes.Keys;
      while todo != {}
        invariant todo <= episodes.Keys
        invariant forall p :: p in found <==>
                    && p.1 in episodes && p.1 !in todo && p.0 == episodes[p.1].createdAt
                    && episodes[p.1].studentId == t.studentId && episodes[p.1].sessionId == t.sessionId
                    && episodes[p.1].skill == t.skill && episodes[p.1].status == Candidate
        decreases |todo|
      {
        var id :| id in todo;
        var e := episodes[id];
        if e.studentId == t.studentId && e.sessionId == t.sessionId && e.skill == t.skill && e.status == Candidate {
          found := found + [(e.createdAt, id)];
        }
        todo := todo - {id};
      }
      NewerFirstTotal();
      SortSorted(NewerFirst, found);
      SortKeepsMembers(NewerFirst, found);
      rows := Sort(NewerFirst, found);
      forall id
        ensures (exists i :: 0 <= i < |rows| && rows[i].1 == id) <==>
                id in episodes && episodes[id].studentId == t.studentId && episodes[id].sessionId == t.sessionId
                && episodes[id].skill == t.skill && episodes[id].status == Candidate
      {
        if id in episodes && (episodes[id].createdAt, id) in found {
          assert (episodes[id].createdAt, id) in rows;
        }
        if i :| 0 <= i < |rows| && rows[i].1 == id {
          assert rows[i] in rows;
        }
      }
      forall i | 0 <= i < |rows|
        ensures rows[i].1 in episodes && rows[i].0 == episodes[rows[i].1].createdAt
      {
        assert rows[i] in rows;
      }
    }

    lemma FirstIsNewest(t: Transfer, rows: seq<(int, string)>, i: nat)
      requires i < |rows| && Sorted(NewerFirst, rows)
      requires forall j :: 0 <= j < |rows| ==> rows[j].1 in episodes && rows[j].0 == episodes[rows[j].1].createdAt
      requires forall id :: id in episodes && Awaits(episodes[id], t) ==> exists j :: i <= j < |rows| && rows[j].1 == id
      ensures forall id :: id in episodes && Awaits(episodes[id], t) ==>
              episodes[id].createdAt <= episodes[rows[i].1].createdAt
    {
      forall id | id in episodes && Awaits(episodes[id], t)
        ensures episodes[id].createdAt <= episodes[rows[i].1].createdAt
      {
        var j :| i <= j < |rows| && rows[j].1 == id;
        assert j > i ==> NewerFirst(rows[i], rows[j]);
      }
    }

    /** The first selected row whose trigger is another item. */
    method NewestTransferCandidate(t: Transfer) returns (candidate: Option<Episode>)
      requires Valid()
      ensures candidate.None? <==> forall id :: id in episodes ==> !Awaits(episodes[id], t)
      ensures candidate.Some? ==> NewestAwaiting(episodes, candidate.value, t)
    {
      var rows := SelectCandidates(t);
      for i := 0 to |rows|
        invariant forall j :: 0 <= j < i ==> episodes[rows[j].1].outcome.triggerContentId == t.contentId
      {
        var row := episodes[rows[i].1];
        if row.outcome.triggerContentId != t.contentId {
          FirstIsNewest(t, rows, i);
          return Some(row);
        }
      }
      candidate := None;
    }

    method CompleteRuntimeCandidate(t: Transfer) returns (r: Result<Option<Episode>, EpisodeError>)
      requires Valid()
      modifies this`episodes, this`upserts
      ensures Valid()
      ensures r == Ok(None) <==> forall id :: id in old(episodes) ==> !Awaits(old(episodes)[id], t)
      ensures r.Err? ==> t.studentId !in activeStudents
      ensures r.Ok? && r.value.Some? ==>
                && t.studentId in activeStudents
                && r.value.value.episodeId in old(episodes)
                && r.value.value.episodeId in episodes && episodes[r.value.value.episodeId] == r.value.value
                && Resolves(old(State()), State(), old(episodes)[r.value.value.episodeId], t)
      ensures r.Err? || r == Ok(None) ==> State() == old(State())
    {
      var candidate := NewestTransferCandidate(t);
      if candidate.None? {
        return Ok(None);
      }
      var savedEpisodes := episodes;
      var updated := Completed(candidate.value, t);
      episodes := episodes[updated.episodeId := updated];
      // validate: the guard raises for a student who is not active, and the update is rolled back
      if updated.studentId !in activeStudents {
        episodes := savedEpisodes;
        return Err(StudentNotActive);
      }
      updated := updated.(status := Verdict(updated));
      episodes := episodes[updated.episodeId := updated];
      if updated.status == Validated {
        upserts := Enqueued(upserts, updated);
      }
      assert episodes == savedEpisodes[updated.episodeId := updated];
      assert Resolves(old(State()), State(), candidate.value, t);
      ResolveKeepsInv(old(State()), State(), candidate.value, t);
      r := Ok(Some(updated));
    }
  }

  /** `INSERT ... ON CONFLICT (idempotency_key) DO NOTHING`. */
  function Enqueued(upserts: map<string, Episode>, e: Episode): map<string, Episode> {
    if e.episodeId in upserts then upserts else upserts[e.episodeId := e]
  }

  /** The score threshold of validation, for every integer hint level. */
  lemma ScoreReachesThresholdIff(correct: bool, hintLevel: int)
    ensures OutcomeComponentScore(correct, hintLevel) >= EPISODE_MIN_CONFIDENCE <==> Convincing(correct, hintLevel)
  {
  }
}
