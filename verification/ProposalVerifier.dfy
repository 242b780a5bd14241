/** `verify_proposal` of app/agent/hybrid.py: the fail-closed check of a model proposal, its
    nested loops against declarative conditions. */
module ProposalVerifier {
  import opened Common
  import opened Sessions
  import opened Policy

  datatype ClaimCode =
    | SameMisconception
    | SuccessfulTransfer
    | SupportedInterventionEffect
    | BehavioralLearningSignal
    | StudentReasoningSignal

  predicate EpisodeClaim(c: ClaimCode) {
    c == SameMisconception || c == SuccessfulTransfer || c == SupportedInterventionEffect
  }

  datatype InterventionEvidence = InterventionEvidence(
    skill: Option<string>,
    misconception: Option<string>,
    intervention: BoundedAction,
    difficultyBand: int,
    supported: bool)

  datatype Context = Context(
    skill: string,
    activeMisconception: Option<string>,
    difficulty: int,
    currentState: SessionState,
    hintsUsed: nat,
    consecutiveErrors: nat,
    correctStreak: nat,
    misconceptionEvidenceCount: nat,
    interventionStats: seq<InterventionEvidence>)

  /** An episode as stored; `intervention` is None when the stored name is no bounded action. */
  datatype Episode = Episode(
    studentId: string,
    skill: string,
    misconception: Option<string>,
    intervention: Option<BoundedAction>,
    outcomeCorrect: bool,
    outcomeDifferentItem: bool,
    effectiveness: real,
    confidence: real,
    validated: bool)

  datatype ContentType = WorkedExampleContent | MicroLessonContent | OtherContent

  datatype ContentRecord = ContentRecord(
    approved: bool,
    contentType: ContentType,
    targetSkill: string,
    misconceptions: seq<string>,
    licenseId: string,
    sourceId: string,
    packVersion: string)

  datatype Claim = Claim(code: ClaimCode, refs: seq<string>)

  /** `prohibited` says whether the lower-cased rationale contains a prohibited phrase. */
  datatype Proposal = Proposal(
    action: BoundedAction,
    episodeId: Option<string>,
    contentId: Option<string>,
    prohibited: bool,
    claims: seq<Claim>)

  datatype Evidence = Evidence(
    episodes: map<string, Episode>,
    content: map<string, ContentRecord>,
    expectedStudent: Option<string>)

  /** Everything one call of the verifier reads. */
  datatype Request = Request(
    context: Context,
    constraints: PolicyConstraints,
    proposal: Proposal,
    evidence: Evidence,
    sourceEventCurrent: bool)

  datatype Note =
    | ActionAllowed | StateTransitionLegal | EpisodeInCandidateSet | EpisodeTenantScoped | EpisodeGrounded
    | ContentInRegistry | ContentApproved | ContentGrounded | ClaimsGrounded
    | ActionViolatesHardGuard | ActionNotAllowed | ActionMissingStateMapping | IllegalStateTransition
    | SourceEventStale | UngroundedEpisode | ForeignEpisode | EpisodeNotValidated | EpisodeSkillMismatch
    | EpisodeMisconceptionMismatch | UngroundedContent | ContentNotApproved | ContentTypeMismatch
    | ContentSkillMismatch | ContentMisconceptionMismatch | ContentLineageIncomplete
    | ProhibitedRationaleClaim | ClaimWithoutEvidence | ClaimRefNotInCandidates | ClaimForeignEpisode
    | ClaimSkillMismatch | ClaimMisconceptionMismatch | ClaimEpisodeNotSuccessful | ClaimNotTransfer
    | ClaimWeakEvidence | ClaimNoSupportedStat | ClaimStatInsufficient | ClaimNoBehavioralSignal
    | ClaimCitesEpisodeAsSignal

  datatype Outcome = Outcome(
    accepted: bool,
    checks: seq<Note>,
    rejectedReason: Option<Note>,
    rationaleAccepted: bool,
    episodeId: Option<string>,
    contentId: Option<string>)

  /** The dataclass defaults: a rejection names no selection and leaves the rationale flag up. */
  function Rejected(checks: seq<Note>, reason: Note): Outcome {
    Outcome(false, checks, Some(reason), true, None, None)
  }

  // ---- the declarative conditions

  predicate ActionSafe(r: Request) {
    && (r.constraints.hardAction.Some? ==> r.proposal.action == r.constraints.hardAction.value)
    && r.proposal.action in r.constraints.allowedActions
    && r.proposal.action in r.constraints.nextStates
    && CanTransition(r.context.currentState, r.constraints.nextStates[r.proposal.action])
    && r.sourceEventCurrent
  }

  predicate OwnedBy(e: Episode, student: Option<string>) {
    student.Some? ==> e.studentId == student.value
  }

  predicate EpisodeSafe(r: Request) {
    r.proposal.episodeId.Some? ==>
      && r.proposal.episodeId.value in r.evidence.episodes
      && var e := r.evidence.episodes[r.proposal.episodeId.value];
      && OwnedBy(e, r.evidence.expectedStudent)
      && e.validated
      && e.skill == r.context.skill
      && (r.context.activeMisconception.Some? ==> e.misconception == r.context.activeMisconception)
  }

  predicate ContentFits(c: ContentRecord, action: BoundedAction, context: Context) {
    && c.approved
    && (action == ShowWorkedExample ==> c.contentType == WorkedExampleContent)
    && (action == ShowMicroLesson ==> c.contentType == MicroLessonContent)
    && c.targetSkill == context.skill
    && (context.activeMisconception.Some? && c.misconceptions != [] ==>
        context.activeMisconception.value in c.misconceptions)
    && c.licenseId != "" && c.sourceId != "" && c.packVersion != ""
  }

  predicate ContentSafe(r: Request) {
    r.proposal.contentId.Some? ==>
      && r.proposal.contentId.value in r.evidence.content
      && ContentFits(r.evidence.content[r.proposal.contentId.value], r.proposal.action, r.context)
  }

  /** The episode is evidence for the claim. */
  predicate Supports(e: Episode, code: ClaimCode, r: Request) {
    && OwnedBy(e, r.evidence.expectedStudent)
    && e.skill == r.context.skill
    && e.misconception == r.context.activeMisconception
    && (code == SuccessfulTransfer ==>
          e.outcomeCorrect && e.outcomeDifferentItem && e.effectiveness >= 0.6 && e.confidence >= 0.5)
    && (code == SupportedInterventionEffect ==>
          exists s :: s in r.context.interventionStats && s.supported
                      && Some(s.intervention) == e.intervention
                      && s.skill == Some(r.context.skill)
                      && s.misconception == r.context.activeMisconception
                      && s.difficultyBand == r.context.difficulty)
  }

  /** No claim cites the selected episode for something it does not show. */
  predicate SelectionSupported(r: Request) {
    forall c :: c in r.proposal.claims && EpisodeClaim(c.code) && CitesSelection(c, r) ==>
                  SelectionSupports(c, r)
  }

  predicate CitesSelection(c: Claim, r: Request) {
    && r.proposal.episodeId.Some?
    && r.proposal.episodeId.value in c.refs
    && r.proposal.episodeId.value in r.evidence.episodes
  }

  predicate SelectionSupports(c: Claim, r: Request)
    requires CitesSelection(c, r)
  {
    Supports(r.evidence.episodes[r.proposal.episodeId.value], c.code, r)
  }

  predicate HasSignal(context: Context) {
    || context.hintsUsed > 0 || context.consecutiveErrors > 0 || context.correctStreak > 0
    || context.misconceptionEvidenceCount > 0
  }

  predicate ClaimGroundedIn(c: Claim, r: Request) {
    && c.refs != []
    && if EpisodeClaim(c.code) then
        forall ref :: ref in c.refs ==> ref in r.evidence.episodes && Supports(r.evidence.episodes[ref], c.code, r)
      else
        HasSignal(r.context) && forall ref :: ref in c.refs ==> ref !in r.evidence.episodes
  }

  predicate Accepts(r: Request) {
    ActionSafe(r) && EpisodeSafe(r) && ContentSafe(r) && SelectionSupported(r)
  }

  predicate RationaleGrounded(r: Request) {
    !r.proposal.prohibited && forall c :: c in r.proposal.claims ==> ClaimGroundedIn(c, r)
  }

  // ---- _episode_ok_for_claim

  method EpisodeOkForClaim(e: Episode, code: ClaimCode, r: Request) returns (problem: Option<Note>)
    requires EpisodeClaim(code)
    ensures problem == ClaimProblem(e, code, r)
  {
    if !OwnedBy(e, r.evidence.expectedStudent) {
      return Some(ClaimForeignEpisode);
    }
    if e.skill != r.context.skill {
      return Some(ClaimSkillMismatch);
    }
    if e.misconception != r.context.activeMisconception {
      return Some(ClaimMisconceptionMismatch);
    }
    if code == SuccessfulTransfer {
      if !e.outcomeCorrect {
        return Some(ClaimEpisodeNotSuccessful);
      }
      if !e.outcomeDifferentItem {
        return Some(ClaimNotTransfer);
      }
      if e.effectiveness < 0.6 || e.confidence < 0.5 {
        return Some(ClaimWeakEvidence);
      }
    } else if code == SupportedInterventionEffect {
      if |r.context.interventionStats| == 0 {
        return Some(ClaimNoSupportedStat);
      }
      if !StatMatches(e, r) {
        return Some(ClaimStatInsufficient);
      }
    }
    problem := None;
  }

  predicate StatMatches(e: Episode, r: Request) {
    exists s :: s in r.context.interventionStats && s.supported
                && Some(s.intervention) == e.intervention
                && s.skill == Some(r.context.skill)
                && s.misconception == r.context.activeMisconception
                && s.difficultyBand == r.context.difficulty
  }

  function ClaimProblem(e: Episode, code: ClaimCode, r: Request): (p: Option<Note>)
    requires EpisodeClaim(code)
    ensures p.None? <==> Supports(e, code, r)
  {
    if !OwnedBy(e, r.evidence.expectedStudent) then Some(ClaimForeignEpisode)
    else if e.skill != r.context.skill then Some(ClaimSkillMismatch)
    else if e.misconception != r.context.activeMisconception then Some(ClaimMisconceptionMismatch)
    else if code == SuccessfulTransfer && !e.outcomeCorrect then Some(ClaimEpisodeNotSuccessful)
    else if code == SuccessfulTransfer && !e.outcomeDifferentItem then Some(ClaimNotTransfer)
    else if code == SuccessfulTransfer && (e.effectiveness < 0.6 || e.confidence < 0.5) then Some(ClaimWeakEvidence)
    else if code == SupportedInterventionEffect && r.context.interventionStats == [] then Some(ClaimNoSupportedStat)
    else if code == SupportedInterventionEffect && !StatMatches(e, r) then Some(ClaimStatInsufficient)
    else None
  }

  // ---- the loops, as a fold from the left

  /** State of the rationale loops: `stop` is set by the early return. */
  datatype Scan = Scan(checks: seq<Note>, rationale: bool, stop: Option<Note>)

  function ScanRef(c: Claim, ref: string, s: Scan, r: Request): Scan
    requires EpisodeClaim(c.code)
  {
    if s.stop.Some? then s
    else if ref !in r.evidence.episodes then Scan(s.checks + [ClaimRefNotInCandidates], false, None)
    else
      match ClaimProblem(r.evidence.episodes[ref], c.code, r)
      case None => s
      case Some(problem) =>
        Scan(s.checks + [problem], false, if Some(ref) == r.proposal.episodeId then Some(problem) else None)
  }

  function ScanRefs(c: Claim, n: nat, s: Scan, r: Request): Scan
    requires EpisodeClaim(c.code) && n <= |c.refs|
  {
    if n == 0 then s else ScanRef(c, c.refs[n - 1], ScanRefs(c, n - 1, s, r), r)
  }

  function ScanSignal(c: Claim, s: Scan, r: Request): Scan {
    var s1 := if HasSignal(r.context) then s else Scan(s.checks + [ClaimNoBehavioralSignal], false, None);
    if exists ref :: ref in c.refs && ref in r.evidence.episodes then
      Scan(s1.checks + [ClaimCitesEpisodeAsSignal], false, None)
    else s1
  }

  function ScanClaim(c: Claim, s: Scan, r: Request): Scan {
    if s.stop.Some? then s
    else if c.refs == [] then Scan(s.checks + [ClaimWithoutEvidence], false, None)
    else if EpisodeClaim(c.code) then ScanRefs(c, |c.refs|, s, r)
    else ScanSignal(c, s, r)
  }

  function ScanClaims(n: nat, s: Scan, r: Request): Scan
    requires n <= |r.proposal.claims|
  {
    if n == 0 then s else ScanClaim(r.proposal.claims[n - 1], ScanClaims(n - 1, s, r), r)
  }

  // ---- the guards before the loops

  /** The notes the guards leave and the reason of the first guard that fails. */
  datatype Guards = Guards(checks: seq<Note>, reason: Option<Note>)

  function ActionGuards(r: Request): (g: Guards)
    ensures g.reason.None? <==> ActionSafe(r)
  {
    var action := r.proposal.action;
    if r.constraints.hardAction.Some? && action != r.constraints.hardAction.value
    then Guards([], Some(ActionViolatesHardGuard))
    else if action !in r.constraints.allowedActions then Guards([], Some(ActionNotAllowed))
    else if action !in r.constraints.nextStates then Guards([ActionAllowed], Some(ActionMissingStateMapping))
    else if !CanTransition(r.context.currentState, r.constraints.nextStates[action]) then
      Guards([ActionAllowed], Some(IllegalStateTransition))
    else if !r.sourceEventCurrent then Guards([ActionAllowed, StateTransitionLegal], Some(SourceEventStale))
    else Guards([ActionAllowed, StateTransitionLegal], None)
  }

  function EpisodeGuards(r: Request): (g: Guards)
    ensures g.reason.None? <==> EpisodeSafe(r)
  {
    if r.proposal.episodeId.None? then Guards([], None)
    else if r.proposal.episodeId.value !in r.evidence.episodes then Guards([], Some(UngroundedEpisode))
    else
      var e := r.evidence.episodes[r.proposal.episodeId.value];
      if !OwnedBy(e, r.evidence.expectedStudent) then Guards([EpisodeInCandidateSet], Some(ForeignEpisode))
      else
        var scoped := [EpisodeInCandidateSet, EpisodeTenantScoped];
        if !e.validated then Guards(scoped, Some(EpisodeNotValidated))
        else if e.skill != r.context.skill then Guards(scoped, Some(EpisodeSkillMismatch))
        else if r.context.activeMisconception.Some? && e.misconception != r.context.activeMisconception then
          Guards(scoped, Some(EpisodeMisconceptionMismatch))
        else Guards(scoped + [EpisodeGrounded], None)
  }

  function ContentGuards(r: Request): (g: Guards)
    ensures g.reason.None? <==> ContentSafe(r)
  {
    if r.proposal.contentId.None? then Guards([], None)
    else if r.proposal.contentId.value !in r.evidence.content then Guards([], Some(UngroundedContent))
    else
      var c := r.evidence.content[r.proposal.contentId.value];
      if !c.approved then Guards([ContentInRegistry], Some(ContentNotApproved))
      else
        var approved := [ContentInRegistry, ContentApproved];
        if (r.proposal.action == ShowWorkedExample && c.contentType != WorkedExampleContent)
           || (r.proposal.action == ShowMicroLesson && c.contentType != MicroLessonContent) then
          Guards(approved, Some(ContentTypeMismatch))
        else if c.targetSkill != r.context.skill then Guards(approved, Some(ContentSkillMismatch))
        else if r.context.activeMisconception.Some? && c.misconceptions != []
                && r.context.activeMisconception.value !in c.misconceptions then
          Guards(approved, Some(ContentMisconceptionMismatch))
        else if c.licenseId == "" || c.sourceId == "" || c.packVersion == "" then
          Guards(approved, Some(ContentLineageIncomplete))
        else Guards(approved + [ContentGrounded], None)
  }

  /** State of the rationale loops before the first claim. */
  function ScanStart(r: Request): Scan {
    Scan(ActionGuards(r).checks + EpisodeGuards(r).checks + ContentGuards(r).checks
         + (if r.proposal.prohibited then [ProhibitedRationaleClaim] else []),
         !r.proposal.prohibited, None)
  }

  function Verdict(r: Request): Outcome {
    var a, e, c := ActionGuards(r), EpisodeGuards(r), ContentGuards(r);
    if a.reason.Some? then Rejected(a.checks, a.reason.value)
    else if e.reason.Some? then Rejected(a.checks + e.checks, e.reason.value)
    else if c.reason.Some? then Rejected(a.checks + e.checks + c.checks, c.reason.value)
    else
      var scan := ScanClaims(|r.proposal.claims|, ScanStart(r), r);
      if scan.stop.Some? then Rejected(scan.checks, scan.stop.value)
      else
        Outcome(true,
                scan.checks + (if scan.rationale && r.proposal.claims != [] then [ClaimsGrounded] else []),
                None, scan.rationale, r.proposal.episodeId, r.proposal.contentId)
  }

  // ---- verify_proposal

  method CheckEpisodeClaim(c: Claim, start: Scan, r: Request) returns (s: Scan)
    requires EpisodeClaim(c.code) && start.stop.None?
    ensures s == ScanRefs(c, |c.refs|, start, r)
  {
    s := start;
    var i := 0;
    while i < |c.refs|
      invariant 0 <= i <= |c.refs|
      invariant s == ScanRefs(c, i, start, r) && s.stop.None?
    {
      var ref := c.refs[i];
      if ref !in r.evidence.episodes {
        s := Scan(s.checks + [ClaimRefNotInCandidates], false, None);
      } else {
        var problem := EpisodeOkForClaim(r.evidence.episodes[ref], c.code, r);
        if problem.Some? {
          s := Scan(s.checks + [problem.value], false, None);
          if Some(ref) == r.proposal.episodeId {
            s := s.(stop := problem);
            StopIsFinal(c, i + 1, start, r);
            return;
          }
        }
      }
      i := i + 1;
    }
  }

  lemma {:induction false} StopIsFinal(c: Claim, n: nat, s: Scan, r: Request)
    requires EpisodeClaim(c.code) && n <= |c.refs|
    requires ScanRefs(c, n, s, r).stop.Some?
    ensures ScanRefs(c, |c.refs|, s, r) == ScanRefs(c, n, s, r)
    decreases |c.refs| - n
  {
    if n < |c.refs| {
      StopIsFinal(c, n + 1, s, r);
    }
  }

  method CheckSignalClaim(c: Claim, start: Scan, r: Request) returns (s: Scan)
    requires start.stop.None?
    ensures s == ScanSignal(c, start, r)
  {
    s := start;
    if !HasSignal(r.context) {
      s := Scan(s.checks + [ClaimNoBehavioralSignal], false, None);
    }
    for i := 0 to |c.refs|
      invariant forall j :: 0 <= j < i ==> c.refs[j] !in r.evidence.episodes
    {
      if c.refs[i] in r.evidence.episodes {
        s := Scan(s.checks + [ClaimCitesEpisodeAsSignal], false, None);
        return;
      }
    }
  }

  lemma {:induction false} ClaimStopIsFinal(n: nat, s: Scan, r: Request)
    requires n <= |r.proposal.claims|
    requires ScanClaims(n, s, r).stop.Some?
    ensures ScanClaims(|r.proposal.claims|, s, r) == ScanClaims(n, s, r)
    decreases |r.proposal.claims| - n
  {
    if n < |r.proposal.claims| {
      ClaimStopIsFinal(n + 1, s, r);
    }
  }

  method CheckClaims(start: Scan, r: Request) returns (s: Scan)
    requires start.stop.None?
    ensures s == ScanClaims(|r.proposal.claims|, start, r)
  {
    s := start;
    var i := 0;
    while i < |r.proposal.claims|
      invariant 0 <= i <= |r.proposal.claims|
      invariant s == ScanClaims(i, start, r) && s.stop.None?
    {
      var claim := r.proposal.claims[i];
      if |claim.refs| == 0 {
        s := Scan(s.checks + [ClaimWithoutEvidence], false, None);
      } else if EpisodeClaim(claim.code) {
        s := CheckEpisodeClaim(claim, s, r);
        if s.stop.Some? {
          ClaimStopIsFinal(i + 1, start, r);
          return;
        }
      } else {
        s := CheckSignalClaim(claim, s, r);
      }
      i := i + 1;
    }
  }

  method CheckAction(r: Request) returns (g: Guards)
    ensures g == ActionGuards(r)
  {
    var action := r.proposal.action;
    if r.constraints.hardAction.Some? && action != r.constraints.hardAction.value {
      return Guards([], Some(ActionViolatesHardGuard));
    }
    if action !in r.constraints.allowedActions {
      return Guards([], Some(ActionNotAllowed));
    }
    var checks := [ActionAllowed];
    if action !in r.constraints.nextStates {
      return Guards(checks, Some(ActionMissingStateMapping));
    }
    if !CanTransition(r.context.currentState, r.constraints.nextStates[action]) {
      return Guards(checks, Some(IllegalStateTransition));
    }
    checks := checks + [StateTransitionLegal];
    if !r.sourceEventCurrent {
      return Guards(checks, Some(SourceEventStale));
    }
    g := Guards(checks, None);
  }

  method VerifyProposal(r: Request) returns (outcome: Outcome)
    ensures outcome == Verdict(r)
  {
    var action := CheckAction(r);
    var checks := action.checks;
    if action.reason.Some? {
      return Rejected(checks, action.reason.value);
    }
    var episode := EpisodeGuards(r);
    checks := checks + episode.checks;
    if episode.reason.Some? {
      return Rejected(checks, episode.reason.value);
    }
    var content := ContentGuards(r);
    checks := checks + content.checks;
    if content.reason.Some? {
      return Rejected(checks, content.reason.value);
    }
    var rationaleAccepted := true;
    if r.proposal.prohibited {
      rationaleAccepted := false;
      checks := checks + [ProhibitedRationaleClaim];
    }
    assert checks == ScanStart(r).checks;
    var scan := CheckClaims(Scan(checks, rationaleAccepted, None), r);
    if scan.stop.Some? {
      return Rejected(scan.checks, scan.stop.value);
    }
    checks, rationaleAccepted := scan.checks, scan.rationale;
    if rationaleAccepted && |r.proposal.claims| > 0 {
      checks := checks + [ClaimsGrounded];
    }
    outcome := Outcome(true, checks, None, rationaleAccepted, r.proposal.episodeId, r.proposal.contentId);
    assert scan.checks + [] == scan.checks;
  }

  // ---- the loops decide the declarative conditions

  predicate RefBad(c: Claim, ref: string, r: Request) {
    ref !in r.evidence.episodes || !Supports(r.evidence.episodes[ref], c.code, r)
  }

  predicate RefFatal(c: Claim, ref: string, r: Request) {
    Some(ref) == r.proposal.episodeId && ref in r.evidence.episodes && !Supports(r.evidence.episodes[ref], c.code, r)
  }

  lemma {:induction false} ScanRefsDecides(c: Claim, n: nat, s: Scan, r: Request)
    requires EpisodeClaim(c.code) && n <= |c.refs| && s.stop.None?
    ensures var t := ScanRefs(c, n, s, r);
            && (t.stop.Some? <==> exists i :: 0 <= i < n && RefFatal(c, c.refs[i], r))
            && (t.stop.None? ==> (t.rationale <==> s.rationale && forall i :: 0 <= i < n ==> !RefBad(c, c.refs[i], r)))
  {
    if n > 0 {
      ScanRefsDecides(c, n - 1, s, r);
    }
  }

  predicate ClaimFatal(c: Claim, r: Request) {
    EpisodeClaim(c.code) && CitesSelection(c, r) && !SelectionSupports(c, r)
  }

  lemma ScanClaimDecides(c: Claim, s: Scan, r: Request)
    requires s.stop.None?
    ensures var t := ScanClaim(c, s, r);
            && (t.stop.Some? <==> ClaimFatal(c, r))
            && (t.stop.None? ==> (t.rationale <==> s.rationale && ClaimGroundedIn(c, r)))
  {
    if c.refs != [] && EpisodeClaim(c.code) {
      ScanRefsDecides(c, |c.refs|, s, r);
      if ClaimFatal(c, r) {
        var i :| 0 <= i < |c.refs| && c.refs[i] == r.proposal.episodeId.value;
        assert RefFatal(c, c.refs[i], r);
      }
    }
  }

  lemma {:induction false} ScanClaimsDecides(n: nat, s: Scan, r: Request)
    requires n <= |r.proposal.claims| && s.stop.None?
    ensures var t := ScanClaims(n, s, r);
            && (t.stop.Some? <==> exists i :: 0 <= i < n && ClaimFatal(r.proposal.claims[i], r))
            && (t.stop.None? ==>
                (t.rationale <==> s.rationale && forall i :: 0 <= i < n ==> ClaimGroundedIn(r.proposal.claims[i], r)))
  {
    if n > 0 {
      ScanClaimsDecides(n - 1, s, r);
      var before := ScanClaims(n - 1, s, r);
      if before.stop.None? {
        ScanClaimDecides(r.proposal.claims[n - 1], before, r);
      }
    }
  }

  /** `accepted` is exactly the declarative condition, and an accepted outcome carries the
      proposal's own selections. */
  lemma AcceptedIffSafe(r: Request)
    ensures Verdict(r).accepted <==> Accepts(r)
    ensures Verdict(r).accepted <==> Verdict(r).rejectedReason.None?
    ensures Verdict(r).accepted ==>
            Verdict(r).episodeId == r.proposal.episodeId && Verdict(r).contentId == r.proposal.contentId
    ensures !Verdict(r).accepted ==> Verdict(r).episodeId.None? && Verdict(r).contentId.None?
  {
    ScanClaimsDecides(|r.proposal.claims|, ScanStart(r), r);
    var claims := r.proposal.claims;
    assert SelectionSupported(r) <==> forall i :: 0 <= i < |claims| ==> !ClaimFatal(claims[i], r) by {
      forall i | 0 <= i < |claims| && SelectionSupported(r)
        ensures !ClaimFatal(claims[i], r)
      {
        assert claims[i] in claims;
      }
    }
  }

  /** On an accepted proposal the rationale flag is exactly groundedness; every rejection
      returns the dataclass default instead. */
  lemma RationaleFlag(r: Request)
    ensures Verdict(r).rationaleAccepted <==> (Accepts(r) ==> RationaleGrounded(r))
  {
    AcceptedIffSafe(r);
    ScanClaimsDecides(|r.proposal.claims|, ScanStart(r), r);
  }

  /** "The flag says whether the rationale is grounded" holds exactly for the proposals that are
      accepted or whose rationale was grounded anyway. */
  lemma RationaleFlagMeansGroundedIff(r: Request)
    ensures (Verdict(r).rationaleAccepted <==> RationaleGrounded(r)) <==> (Accepts(r) || RationaleGrounded(r))
  {
    RationaleFlag(r);
  }

  /** A concrete request for which it fails: a stale source event and a prohibited phrase. */
  lemma RejectionKeepsRationaleFlag() returns (r: Request)
    ensures !Verdict(r).accepted && Verdict(r).rationaleAccepted && !RationaleGrounded(r)
  {
    var decision := AgentDecision(RetrySameSkill, TimeReview, ContinuePractice, "linear_equations", 2, []);
    r := Request(
      Context("linear_equations", None, 2, AnswerEvaluated, 0, 0, 0, 0, []),
      Open([RetrySameSkill], decision, map[RetrySameSkill := QuestionActive]),
      Proposal(RetrySameSkill, None, None, true, []),
      Evidence(map[], map[], None),
      false);
    assert ActionGuards(r).reason == Some(SourceEventStale);
  }

  /** Neither verdict depends on the order in which the model lists its claims. */
  lemma ClaimOrderIrrelevant(r: Request, claims: seq<Claim>)
    requires multiset(claims) == multiset(r.proposal.claims)
    ensures var r' := r.(proposal := r.proposal.(claims := claims));
            && Verdict(r').accepted == Verdict(r).accepted
            && Verdict(r').rationaleAccepted == Verdict(r).rationaleAccepted
  {
    var r' := r.(proposal := r.proposal.(claims := claims));
    forall c
      ensures c in claims <==> c in r.proposal.claims
    {
      assert c in claims <==> c in multiset(claims);
      assert c in r.proposal.claims <==> c in multiset(r.proposal.claims);
    }
    SameClaims(r, r');
    RationaleFlag(r);
    RationaleFlag(r');
    AcceptedIffSafe(r);
    AcceptedIffSafe(r');
  }

  lemma SameClaims(r: Request, r': Request)
    requires r' == r.(proposal := r.proposal.(claims := r'.proposal.claims))
    requires forall c :: c in r'.proposal.claims <==> c in r.proposal.claims
    ensures Accepts(r') == Accepts(r)
    ensures RationaleGrounded(r') == RationaleGrounded(r)
  {
  }

  /** The deterministic floor passes the verifier: proposing just the policy's fallback for a
      current source event is accepted, rationale and all. */
  lemma {:induction false} BareFallbackAccepted(inputs: PolicyInput, context: Context, evidence: Evidence)
    requires context.currentState == AnswerEvaluated
    ensures var c := DerivePolicyConstraints(inputs);
            var o := Verdict(Request(context, c, Proposal(c.preferredFallback.action, None, None, false, []),
                                     evidence, true));
            o.accepted && o.rationaleAccepted
  {
    FloorIsExecutable(inputs);
    var c := DerivePolicyConstraints(inputs);
    var r := Request(context, c, Proposal(c.preferredFallback.action, None, None, false, []), evidence, true);
    AcceptedIffSafe(r);
    RationaleFlag(r);
    assert r.proposal.action in c.nextStates;
  }
}
