/** `choose_mode` and `semantic_reasoning_needed` of app/agent/hybrid.py: when a model may be
    asked at all. */
module ReasoningGate {
  import opened Ordering
  import opened Policy

  datatype PolicyEvidence = PolicyEvidence(
    supportedInterventions: seq<BoundedAction>,
    conflictingEpisodes: bool,
    multipleRelevantEpisodes: bool)

  datatype GateReason =
    | HardAction | Offline | NotConfigured | CircuitOpen | BudgetExhausted | SingleAllowedAction
    | NoConflictingEvidence | TaskDisabled | AmbiguousAllowedActions | ConflictingEpisodes
    | MultipleRelevantEpisodes | StatDisagreesWithRecent

  datatype Availability = Availability(configured: bool, circuitOpen: bool, budgetExhausted: bool)

  datatype GateDecision = GateDecision(hybrid: bool, reasons: seq<GateReason>)

  /** Some supported intervention is allowed but is not what the policy would do. */
  predicate StatDisagrees(c: PolicyConstraints, e: PolicyEvidence) {
    exists a :: a in e.supportedInterventions && a in c.allowedActions && a != c.preferredFallback.action
  }

  method SemanticReasoningNeeded(c: PolicyConstraints, e: PolicyEvidence)
    returns (needed: bool, reasons: seq<GateReason>)
    ensures needed <==> |c.allowedActions| >= 2
    ensures !needed ==> reasons == []
    ensures needed ==> reasons != [] && NoRepeats(reasons) && reasons[0] == AmbiguousAllowedActions
    ensures needed ==> forall x :: x in reasons <==>
                         || x == AmbiguousAllowedActions
                         || (x == MultipleRelevantEpisodes && e.multipleRelevantEpisodes)
                         || (x == ConflictingEpisodes && e.conflictingEpisodes)
                         || (x == StatDisagreesWithRecent && StatDisagrees(c, e))
  {
    if |c.allowedActions| < 2 {
      return false, [];
    }
    reasons := [AmbiguousAllowedActions];
    if e.multipleRelevantEpisodes {
      reasons := reasons + [MultipleRelevantEpisodes];
    }
    if e.conflictingEpisodes {
      reasons := reasons + [ConflictingEpisodes];
    }
    ghost var specific := reasons;
    for i := 0 to |e.supportedInterventions|
      invariant reasons == specific
      invariant forall j :: 0 <= j < i ==>
                  !(e.supportedInterventions[j] in c.allowedActions
                    && e.supportedInterventions[j] != c.preferredFallback.action)
    {
      var intervention := e.supportedInterventions[i];
      if intervention in c.allowedActions && intervention != c.preferredFallback.action {
        reasons := reasons + [StatDisagreesWithRecent];
        break;
      }
    }
    needed := true;
  }

  /** A model is asked exactly when nothing forces the action, the learner is online, the
      provider is configured and healthy, the feature is switched on, and two actions are open. */
  predicate Eligible(c: PolicyConstraints, a: Availability, offline: bool, enabled: bool) {
    && c.hardAction.None? && !offline && a.configured && !a.circuitOpen && !a.budgetExhausted && enabled
    && |c.allowedActions| >= 2
  }

  method ChooseMode(c: PolicyConstraints, e: PolicyEvidence, a: Availability, offline: bool, enabled: bool)
    returns (d: GateDecision)
    ensures d.hybrid <==> Eligible(c, a, offline, enabled)
    ensures !d.hybrid ==> d.reasons == [if c.hardAction.Some? then HardAction
                                        else if offline then Offline
                                        else if !a.configured then NotConfigured
                                        else if a.circuitOpen then CircuitOpen
                                        else if a.budgetExhausted then BudgetExhausted
                                        else if !enabled then TaskDisabled
                                        else if |c.allowedActions| == 1 then SingleAllowedAction
                                        else NoConflictingEvidence]
    ensures d.hybrid ==> forall x :: x in d.reasons <==>
                           || x == AmbiguousAllowedActions
                           || (x == MultipleRelevantEpisodes && e.multipleRelevantEpisodes)
                           || (x == ConflictingEpisodes && e.conflictingEpisodes)
                           || (x == StatDisagreesWithRecent && StatDisagrees(c, e))
  {
    if c.hardAction.Some? {
      return GateDecision(false, [HardAction]);
    }
    if offline {
      return GateDecision(false, [Offline]);
    }
    if !a.configured {
      return GateDecision(false, [NotConfigured]);
    }
    if a.circuitOpen {
      return GateDecision(false, [CircuitOpen]);
    }
    if a.budgetExhausted {
      return GateDecision(false, [BudgetExhausted]);
    }
    if !enabled {
      return GateDecision(false, [TaskDisabled]);
    }
    var needed, reasons := SemanticReasoningNeeded(c, e);
    if !needed {
      if |c.allowedActions| == 1 {
        return GateDecision(false, [SingleAllowedAction]);
      }
      return GateDecision(false, [NoConflictingEvidence]);
    }
    d := GateDecision(true, reasons);
  }

  /** For a boundary the policy derived, the last answer of the gate never occurs: a derived
      boundary always has at least its fallback. */
  method GatePolicy(inputs: PolicyInput, e: PolicyEvidence, a: Availability, offline: bool, enabled: bool)
    returns (d: GateDecision)
    ensures NoConflictingEvidence !in d.reasons
    ensures d.hybrid ==>
            inputs.minutesRemaining > 2 && |RecalledActions(inputs)| != 1 && !inputs.requiresUnmasteredPrerequisite
  {
    FloorIsExecutable(inputs);
    HardActionIs(inputs);
    d := ChooseMode(DerivePolicyConstraints(inputs), e, a, offline, enabled);
  }
}
