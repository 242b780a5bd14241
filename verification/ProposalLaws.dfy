/** What `verify_proposal` of app/agent/hybrid.py accepts, why it rejects and what it notes, written
    out in the terms of its inputs. */
module ProposalLaws {
  import opened Common
  import opened Sessions
  import opened Policy
  import opened ProposalVerifier

  /** The selected episode shows what a claim says that cites it: the same skill and misconception; for
      a transfer a right answer to another item with effectiveness from 0.6 and confidence from 0.5
      on; for the effect of an intervention a supported statistic of that intervention for the same
      skill, misconception and difficulty. */
  ghost predicate Shows(e: Episode, code: ClaimCode, context: Context) {
    && e.skill == context.skill && e.misconception == context.activeMisconception
    && (code == SuccessfulTransfer ==>
          e.outcomeCorrect && e.outcomeDifferentItem && e.effectiveness >= 0.6 && e.confidence >= 0.5)
    && (code == SupportedInterventionEffect ==>
          exists s :: s in context.interventionStats && s.supported && e.intervention == Some(s.intervention)
                      && s.skill == Some(context.skill) && s.misconception == context.activeMisconception
                      && s.difficultyBand == context.difficulty)
  }

  /** A proposal is accepted exactly if its action is the forced one or there is none, is allowed and
      leads to a legal next state; its event is the current one; a selected episode is a validated
      candidate of the same student, skill and misconception; selected content is approved, of the
      right type, skill and misconception and of full lineage; and no claim cites the selected episode
      for something it does not show. */
  lemma {:induction false} AcceptedIff(r: Request)
    ensures var p, c, context := r.proposal, r.constraints, r.context;
            Verdict(r).accepted <==>
              && (c.hardAction == None || c.hardAction == Some(p.action))
              && p.action in c.allowedActions && p.action in c.nextStates
              && c.nextStates[p.action] in Transitions(context.currentState)
              && r.sourceEventCurrent
              && (p.episodeId.Some? ==>
                    && p.episodeId.value in r.evidence.episodes
                    && var e := r.evidence.episodes[p.episodeId.value];
                    && (r.evidence.expectedStudent == None || r.evidence.expectedStudent == Some(e.studentId))
                    && e.validated && e.skill == context.skill
                    && (context.activeMisconception == None || e.misconception == context.activeMisconception)
                    && forall claim :: claim in p.claims && p.episodeId.value in claim.refs
                                       && claim.code !in {BehavioralLearningSignal, StudentReasoningSignal} ==>
                                         Shows(e, claim.code, context))
              && (p.contentId.Some? ==>
                    && p.contentId.value in r.evidence.content
                    && var record := r.evidence.content[p.contentId.value];
                    && record.approved
                    && (p.action == ShowWorkedExample ==> record.contentType == WorkedExampleContent)
                    && (p.action == ShowMicroLesson ==> record.contentType == MicroLessonContent)
                    && record.targetSkill == context.skill
                    && (context.activeMisconception == None || record.misconceptions == []
                        || context.activeMisconception.value in record.misconceptions)
                    && record.licenseId != "" && record.sourceId != "" && record.packVersion != "")
  {
    AcceptedIffSafe(r);
    if r.proposal.episodeId.Some? && EpisodeSafe(r) {
      SelectionShows(r);
    }
  }

  lemma SelectionShows(r: Request)
    requires r.proposal.episodeId.Some? && EpisodeSafe(r)
    ensures var id := r.proposal.episodeId.value;
            SelectionSupported(r) <==>
              forall claim :: claim in r.proposal.claims && id in claim.refs
                              && claim.code !in {BehavioralLearningSignal, StudentReasoningSignal} ==>
                                Shows(r.evidence.episodes[id], claim.code, r.context)
  {
    var id := r.proposal.episodeId.value;
    var e := r.evidence.episodes[id];
    forall code: ClaimCode
      ensures Supports(e, code, r) <==> Shows(e, code, r.context)
    {
    }
    forall claim | claim in r.proposal.claims
      ensures EpisodeClaim(claim.code) && CitesSelection(claim, r) <==>
                id in claim.refs && claim.code !in {BehavioralLearningSignal, StudentReasoningSignal}
    {
    }
  }

  /** On an accepted proposal the rationale stands exactly if it has no prohibited phrase and every
      claim cites something: an episode claim only candidates of the same student that show it, a
      signal claim no episode, with some behavioural signal in the context. */
  lemma {:induction false} RationaleIff(r: Request)
    requires Verdict(r).accepted
    ensures var context := r.context;
            Verdict(r).rationaleAccepted <==>
              && !r.proposal.prohibited
              && forall claim :: claim in r.proposal.claims ==>
                   && claim.refs != []
                   && if claim.code in {BehavioralLearningSignal, StudentReasoningSignal} then
                        && (context.hintsUsed > 0 || context.consecutiveErrors > 0 || context.correctStreak > 0
                            || context.misconceptionEvidenceCount > 0)
                        && forall ref :: ref in claim.refs ==> ref !in r.evidence.episodes
                      else
                        forall ref :: ref in claim.refs ==>
                          && ref in r.evidence.episodes
                          && (r.evidence.expectedStudent == None
                              || r.evidence.expectedStudent == Some(r.evidence.episodes[ref].studentId))
                          && Shows(r.evidence.episodes[ref], claim.code, context)
  {
    AcceptedIffSafe(r);
    RationaleFlag(r);
    forall e: Episode, code: ClaimCode
      ensures Supports(e, code, r) <==>
                && (r.evidence.expectedStudent == None || r.evidence.expectedStudent == Some(e.studentId))
                && Shows(e, code, r.context)
    {
    }
    forall code: ClaimCode
      ensures EpisodeClaim(code) <==> code !in {BehavioralLearningSignal, StudentReasoningSignal}
    {
    }
  }

  // ---- reasons and notes

  /** The reason that a rejection gives: the first fault in this order. */
  lemma {:induction false} ReasonIs(r: Request)
    ensures var p, c, context, reason := r.proposal, r.constraints, r.context, Verdict(r).rejectedReason;
            if c.hardAction.Some? && c.hardAction.value != p.action then reason == Some(ActionViolatesHardGuard)
            else if p.action !in c.allowedActions then reason == Some(ActionNotAllowed)
            else if p.action !in c.nextStates then reason == Some(ActionMissingStateMapping)
            else if c.nextStates[p.action] !in Transitions(context.currentState) then
              reason == Some(IllegalStateTransition)
            else if !r.sourceEventCurrent then reason == Some(SourceEventStale)
            else if EpisodeFault(r).Some? then reason == EpisodeFault(r)
            else if ContentFault(r).Some? then reason == ContentFault(r)
            else reason.Some? ==>
              reason.value in {ClaimMisconceptionMismatch, ClaimEpisodeNotSuccessful, ClaimNotTransfer,
                               ClaimWeakEvidence, ClaimNoSupportedStat, ClaimStatInsufficient}
  {
    AcceptedIffSafe(r);
    if ActionSafe(r) && EpisodeSafe(r) && ContentSafe(r) {
      StopReasons(|r.proposal.claims|, ScanStart(r), r);
    }
  }

  function EpisodeFault(r: Request): Option<Note> {
    if r.proposal.episodeId.None? then None
    else if r.proposal.episodeId.value !in r.evidence.episodes then Some(UngroundedEpisode)
    else
      var e, wanted := r.evidence.episodes[r.proposal.episodeId.value], r.context.activeMisconception;
      if r.evidence.expectedStudent.Some? && r.evidence.expectedStudent.value != e.studentId then Some(ForeignEpisode)
      else if !e.validated then Some(EpisodeNotValidated)
      else if e.skill != r.context.skill then Some(EpisodeSkillMismatch)
      else if wanted.Some? && e.misconception != wanted then Some(EpisodeMisconceptionMismatch)
      else None
  }

  function ContentFault(r: Request): Option<Note> {
    if r.proposal.contentId.None? then None
    else if r.proposal.contentId.value !in r.evidence.content then Some(UngroundedContent)
    else
      var c, action := r.evidence.content[r.proposal.contentId.value], r.proposal.action;
      var wanted := r.context.activeMisconception;
      if !c.approved then Some(ContentNotApproved)
      else if (action == ShowWorkedExample && c.contentType != WorkedExampleContent)
              || (action == ShowMicroLesson && c.contentType != MicroLessonContent) then Some(ContentTypeMismatch)
      else if c.targetSkill != r.context.skill then Some(ContentSkillMismatch)
      else if wanted.Some? && c.misconceptions != [] && wanted.value !in c.misconceptions then
        Some(ContentMisconceptionMismatch)
      else if "" in {c.licenseId, c.sourceId, c.packVersion} then Some(ContentLineageIncomplete)
      else None
  }

  predicate ClaimNote(note: Note) {
    note in {ClaimWithoutEvidence, ClaimRefNotInCandidates, ClaimForeignEpisode, ClaimSkillMismatch,
             ClaimMisconceptionMismatch, ClaimEpisodeNotSuccessful, ClaimNotTransfer, ClaimWeakEvidence,
             ClaimNoSupportedStat, ClaimStatInsufficient, ClaimNoBehavioralSignal, ClaimCitesEpisodeAsSignal}
  }

  /** The reasons of an early return, for a selected episode that passed its guards. */
  predicate StopNote(note: Note) {
    note in {ClaimMisconceptionMismatch, ClaimEpisodeNotSuccessful, ClaimNotTransfer, ClaimWeakEvidence,
             ClaimNoSupportedStat, ClaimStatInsufficient}
  }

  /** What the loops may add to the notes, and what may stop them. */
  ghost predicate Extends(s: Scan, t: Scan) {
    && (forall note :: note in s.checks ==> note in t.checks)
    && (forall note :: note in t.checks ==> note in s.checks || ClaimNote(note))
    && (t.stop.Some? ==> s.stop == t.stop || StopNote(t.stop.value))
  }

  lemma {:induction false} RefsExtend(c: Claim, n: nat, s: Scan, r: Request)
    requires EpisodeClaim(c.code) && n <= |c.refs| && EpisodeSafe(r)
    ensures Extends(s, ScanRefs(c, n, s, r))
  {
    if n > 0 {
      RefsExtend(c, n - 1, s, r);
    }
  }

  lemma {:induction false} StopReasons(n: nat, s: Scan, r: Request)
    requires n <= |r.proposal.claims| && EpisodeSafe(r)
    ensures Extends(s, ScanClaims(n, s, r))
  {
    if n > 0 {
      var c, before := r.proposal.claims[n - 1], ScanClaims(n - 1, s, r);
      StopReasons(n - 1, s, r);
      if before.stop.None? && c.refs != [] && EpisodeClaim(c.code) {
        RefsExtend(c, |c.refs|, before, r);
      }
    }
  }

  lemma StartNotes(r: Request)
    requires ActionSafe(r) && EpisodeSafe(r) && ContentSafe(r)
    ensures forall note :: note in ScanStart(r).checks <==>
              || note == ActionAllowed || note == StateTransitionLegal
              || (r.proposal.episodeId.Some? && note in {EpisodeInCandidateSet, EpisodeTenantScoped, EpisodeGrounded})
              || (r.proposal.contentId.Some? && note in {ContentInRegistry, ContentApproved, ContentGrounded})
              || (r.proposal.prohibited && note == ProhibitedRationaleClaim)
  {
    assert ActionGuards(r).checks == [ActionAllowed, StateTransitionLegal];
    assert EpisodeGuards(r).checks == if r.proposal.episodeId.None? then []
                                      else [EpisodeInCandidateSet, EpisodeTenantScoped] + [EpisodeGrounded];
    assert ContentGuards(r).checks == if r.proposal.contentId.None? then []
                                      else [ContentInRegistry, ContentApproved] + [ContentGrounded];
  }

  /** The notes of an accepted proposal, apart from those about its claims: action and transition
      always, those of episode and content exactly with a selection, the prohibited phrase exactly with
      one, and that the claims are grounded exactly for a rationale with claims that stands. */
  lemma {:induction false} AcceptedNotes(r: Request)
    requires Verdict(r).accepted
    ensures forall note :: !ClaimNote(note) ==>
              (note in Verdict(r).checks <==>
                || note == ActionAllowed || note == StateTransitionLegal
                || (r.proposal.episodeId.Some? && note in {EpisodeInCandidateSet, EpisodeTenantScoped, EpisodeGrounded})
                || (r.proposal.contentId.Some? && note in {ContentInRegistry, ContentApproved, ContentGrounded})
                || (r.proposal.prohibited && note == ProhibitedRationaleClaim)
                || (note == ClaimsGrounded && Verdict(r).rationaleAccepted && r.proposal.claims != []))
  {
    AcceptedIffSafe(r);
    StartNotes(r);
    StopReasons(|r.proposal.claims|, ScanStart(r), r);
    var scan := ScanClaims(|r.proposal.claims|, ScanStart(r), r);
    NotesOf(r, scan);
  }

  lemma {:induction false} NotesOf(r: Request, scan: Scan)
    requires Verdict(r).accepted && scan == ScanClaims(|r.proposal.claims|, ScanStart(r), r)
    ensures forall note :: note in Verdict(r).checks <==>
              note in scan.checks || (note == ClaimsGrounded && Verdict(r).rationaleAccepted && r.proposal.claims != [])
  {
  }
}
