/**
 Which next transition each status and request gets: every reason by exactly when it is given, and every
 transition by what it binds and carries.
 */
module TransitionAnswers {
  import opened Wrappers
  import opened ReviewText
  import opened TransitionTypes
  import opened NextTransition
  import opened TransitionValidator
  import opened TransitionAgreement
  import AuthorizationText

  // An authority in this state is current, and the review goes on.
  predicate Reached(s: Status, state: State) {
    GoesOn(s) && s.authority.value.state == state
  }

  // The review can only go on in a successor.
  predicate Recovers(s: Status) {
    || Reached(s, Invalidated)
    || (s.action == RecoverAction && (Reached(s, CorrectionRequired) || Reached(s, Approved)))
  }

  // The live target is not the one the authority is of.
  predicate TargetMoved(s: Status) {
    s.authorityTarget != "" && s.authorityTarget != s.targetIdentity
  }

  // A command line can select the target again, with these flags.
  predicate SelectorsAreSpellable(sel: Selector) {
    && sel.recoveryRepresentable
    && match sel.kind
       case CurrentChanges => sel.baseRef == "" && sel.baseTree == "" && !sel.overlay
       case BaseDiff => sel.baseRef != "" && sel.baseTree == "" && !sel.overlay
       case WorkspaceOverlay => sel.overlay && (sel.baseRef == "" <==> sel.baseTree != "")
       case OtherKind => false
  }

  // Everyone is named, and the maintainer's text is the one for this recovery; without a selector it names no
  // successor.
  predicate MaintainerAgrees(s: Status, r: Request) {
    s.authority.Some? && r.successor != "" && r.reason != "" && r.actor != "" &&
    r.authorization == AuthorizationText.Authorization(
      s.authority.value.lineage, s.authority.value.revision, s.targetIdentity,
      if r.selector.Some? then r.successor else "", r.actor, r.reason)
  }

  // ----- where a reason comes from -----

  datatype Family = Elsewhere | Unbound | OnRequest | OnReviewing | OnCorrecting | OnValidating | OnApproved | OnRecovery

  function FamilyOf(reason: ReasonCode): Family {
    match reason
    case ArtifactsUnverifiable => OnReviewing
    case CaptureUnavailable => OnReviewing
    case ReviewerResultsRequired => OnReviewing
    case CapturedResultsReady => OnReviewing
    case TargetedValidationRequired => OnCorrecting
    case CorrectedCandidateUnavailable => OnCorrecting
    case CorrectionPlanRequired => OnCorrecting
    case EvidenceReady => OnValidating
    case NativeLowRisk => OnValidating
    case EvidenceRequired => OnValidating
    case PrePRUnrepresentable => OnApproved
    case ReceiptReady => OnApproved
    case ExactReceiptReplay => OnApproved
    case GateRequired => OnApproved
    case RecoveryScopeUnchanged => OnRecovery
    case RecoveryUnrepresentable => OnRecovery
    case RecoveryAuthorized => OnRecovery
    case RecoveryAuthorizationRequired => OnRecovery
    case OriginalRequestRequired => OnRequest
    case RetryUnavailable => OnRequest
    case RetryAuthorizationRequired => OnRequest
    case UnchangedAuthority => OnRequest
    case NativeStopRequired => OnRequest
    case EscalatedAuthority => OnRequest
    case ManualIntervention => OnRequest
    case MissingBinding => Unbound
    case _ => Elsewhere
  }

  function FamilyFor(s: Status): Family {
    if s.applicability != CurrentTarget then Elsewhere
    else if s.authority.None? then Unbound
    else if Recovers(s) then OnRecovery
    else if Reached(s, Reviewing) then OnReviewing
    else if Reached(s, CorrectionRequired) then OnCorrecting
    else if Reached(s, Validating) then OnValidating
    else if Reached(s, Approved) then OnApproved
    else OnRequest
  }

  lemma ReviewingFamily(b: Binding, lenses: seq<string>, artifacts: Artifacts, r: Request)
    ensures FamilyOf(ReviewingTransition(b, lenses, artifacts, r).reason) == OnReviewing
  {
    hide MissingInputs;
  }

  lemma RecoveryFamily(s: Status, b: Binding, r: Request)
    requires s.authority.Some?
    ensures FamilyOf(RecoveryTransition(s, b, r).reason) == OnRecovery
  {
    hide RecoverySelectors, RecoveryIsAuthorized, RecoverExecution, BindingArguments;
  }

  lemma CorrectionFamily(s: Status, b: Binding, r: Request)
    requires s.action != RecoverAction
    ensures FamilyOf(CorrectionTransition(s, b, r).reason) == OnCorrecting
  {
    hide RecoveryTransition, BindingArguments;
  }

  lemma ApprovedFamily(s: Status, b: Binding, r: Request)
    requires s.action != RecoverAction
    ensures FamilyOf(ApprovedTransition(s, b, r).reason) == OnApproved
  {
    hide RecoveryTransition, BindingArguments;
  }

  lemma ValidatingFamily(s: Status, b: Binding, evidence: bool)
    ensures FamilyOf(ValidatingTransition(s, b, evidence).reason) == OnValidating
  {
    hide BindingArguments;
  }

  lemma RequestFamily(s: Status, b: Binding)
    ensures FamilyOf(RetryTransition(s, b).reason) == OnRequest
  {
    hide RetryArguments;
  }

  lemma ElsewhereFamily(s: Status, r: Request)
    ensures FamilyOf(UnrelatedTransition(s, r).reason) == Elsewhere && FamilyOf(AmbiguousTransition(s).reason) == Elsewhere
    ensures FamilyOf(RepairTransition(s, r).reason) == Elsewhere
  {
    hide StartArguments, RepairArguments, RepairIsAuthorized;
  }

  lemma {:induction false} CurrentFamily(s: Status, a: Authority, lenses: seq<string>, artifacts: Artifacts,
                                         evidence: bool, r: Request)
    requires s.applicability == CurrentTarget && s.authority == Some(a)
    ensures FamilyOf(CurrentTransition(s, a, lenses, artifacts, evidence, r).reason) == FamilyFor(s)
  {
    hide ReviewingTransition, RecoveryTransition, CorrectionTransition, ApprovedTransition, ValidatingTransition,
         RetryTransition, BindingTarget;
    var b := BindingOf(a, BindingTarget(s, a), r.repositoryContext);
    ReviewingFamily(b, lenses, artifacts, r);
    RecoveryFamily(s, b, r);
    ValidatingFamily(s, b, evidence);
    RequestFamily(s, b);
    if s.action == RecoverAction {
      CorrectionRecovers(s, b, r);
    } else {
      CorrectionFamily(s, b, r);
      ApprovedFamily(s, b, r);
    }
  }

  // What the status reached says which reasons there can be, and nothing else does.
  lemma {:induction false} FamilyIs(s: Status, lenses: seq<string>, artifacts: Artifacts, evidence: bool, r: Request)
    ensures FamilyOf(Build(s, lenses, artifacts, evidence, r).reason) == FamilyFor(s)
  {
    hide CurrentTransition, UnrelatedTransition, AmbiguousTransition, RepairTransition;
    ElsewhereFamily(s, r);
    if s.applicability == CurrentTarget && s.authority.Some? {
      CurrentFamily(s, s.authority.value, lenses, artifacts, evidence, r);
    }
  }

  lemma CorrectionRecovers(s: Status, b: Binding, r: Request)
    requires s.action == RecoverAction
    ensures CorrectionTransition(s, b, r) == RecoveryTransition(s, b, r)
    ensures ApprovedTransition(s, b, r) == RecoveryTransition(s, b, r)
  {
    hide RecoveryTransition;
  }

  // ----- the reasons -----

  /** While reviewing: captured results are taken up exactly when there is one for each lens. */
  lemma {:induction false} ReviewingDecides(s: Status, lenses: seq<string>, artifacts: Artifacts, evidence: bool,
                                            r: Request)
    ensures var reason := Build(s, lenses, artifacts, evidence, r).reason;
            && (reason == ArtifactsUnverifiable <==> Reached(s, Reviewing) && artifacts.Unverifiable?)
            && (reason == CapturedResultsReady <==>
                  Reached(s, Reviewing) && artifacts.Orders? && |artifacts.orders| == |lenses|)
            && (reason == ReviewerResultsRequired <==>
                  && Reached(s, Reviewing) && artifacts.Orders? && |artifacts.orders| != |lenses|
                  && exists o :: 0 <= o < |lenses| && o !in artifacts.orders)
            && (reason == CaptureUnavailable <==>
                  && Reached(s, Reviewing) && artifacts.Orders? && |artifacts.orders| != |lenses|
                  && forall o :: 0 <= o < |lenses| ==> o in artifacts.orders)
  {
    hide RecoveryTransition, CorrectionTransition, ApprovedTransition, ValidatingTransition, RetryTransition,
         UnrelatedTransition, AmbiguousTransition, RepairTransition, MissingInputs;
    FamilyIs(s, lenses, artifacts, evidence, r);
    if s.authority.Some? && artifacts.Orders? {
      InputsAreMissingIff(BindingOf(s.authority.value, BindingTarget(s, s.authority.value), r.repositoryContext), lenses,
                          artifacts.orders, r.capture);
    }
  }

  /** While a correction is required: its validation, its candidate or its plan, in this order. */
  lemma {:induction false} CorrectingDecides(s: Status, lenses: seq<string>, artifacts: Artifacts, evidence: bool,
                                             r: Request)
    ensures var reason := Build(s, lenses, artifacts, evidence, r).reason;
            var corrects := Reached(s, CorrectionRequired) && s.action != RecoverAction;
            && (reason == TargetedValidationRequired <==> corrects && r.validation.Some?)
            && (reason == CorrectedCandidateUnavailable <==> corrects && r.validation.None? && r.forecasted)
            && (reason == CorrectionPlanRequired <==> corrects && r.validation.None? && !r.forecasted)
  {
    hide ReviewingTransition, RecoveryTransition, ApprovedTransition, ValidatingTransition, RetryTransition,
         UnrelatedTransition, AmbiguousTransition, RepairTransition, BindingArguments;
    FamilyIs(s, lenses, artifacts, evidence, r);
  }

  /** While validating: captured evidence is taken up, and a low risk needs none. */
  lemma {:induction false} ValidatingDecides(s: Status, lenses: seq<string>, artifacts: Artifacts, evidence: bool,
                                             r: Request)
    ensures var reason := Build(s, lenses, artifacts, evidence, r).reason;
            && (reason == EvidenceReady <==> Reached(s, Validating) && evidence)
            && (reason == NativeLowRisk <==> Reached(s, Validating) && !evidence && s.lowRisk)
            && (reason == EvidenceRequired <==> Reached(s, Validating) && !evidence && !s.lowRisk)
  {
    hide ReviewingTransition, RecoveryTransition, CorrectionTransition, ApprovedTransition, RetryTransition,
         UnrelatedTransition, AmbiguousTransition, RepairTransition, BindingArguments;
    FamilyIs(s, lenses, artifacts, evidence, r);
  }

  /** Once approved: a present receipt is shown to the gate, a pending one is published again, and else a gate is
      asked for. */
  lemma {:induction false} ApprovedDecides(s: Status, lenses: seq<string>, artifacts: Artifacts, evidence: bool,
                                           r: Request)
    ensures var reason := Build(s, lenses, artifacts, evidence, r).reason;
            var delivers := Reached(s, Approved) && s.action != RecoverAction;
            var unspellable := r.selector.Some? && r.gate == PrePR && !r.selector.value.prePRRepresentable;
            && (reason == PrePRUnrepresentable <==> delivers && s.receipt == Present && unspellable)
            && (reason == ReceiptReady <==> delivers && s.receipt == Present && !unspellable)
            && (reason == ExactReceiptReplay <==> delivers && s.receipt != Present && s.replay == ExactReplaySafe)
            && (reason == GateRequired <==> delivers && s.receipt != Present && s.replay != ExactReplaySafe)
  {
    hide ReviewingTransition, RecoveryTransition, CorrectionTransition, ValidatingTransition, RetryTransition,
         UnrelatedTransition, AmbiguousTransition, RepairTransition, BindingArguments;
    FamilyIs(s, lenses, artifacts, evidence, r);
  }

  lemma SpellableIff(sel: Selector)
    ensures RecoverySelectors(sel).Some? <==> SelectorsAreSpellable(sel)
  {
  }

  lemma AuthorizedIff(s: Status, r: Request)
    requires s.authority.Some?
    ensures RecoveryIsAuthorized(BindingOf(s.authority.value, s.targetIdentity, r.repositoryContext), r) <==>
              MaintainerAgrees(s, r)
  {
    hide AuthorizationText.Authorization;
  }

  /** A recovery: of a target that changed and that a command can select, under the maintainer's own text. */
  lemma {:induction false} RecoveringDecides(s: Status, lenses: seq<string>, artifacts: Artifacts, evidence: bool,
                                             r: Request)
    ensures var reason := Build(s, lenses, artifacts, evidence, r).reason;
            var same := r.selector.Some? && !TargetMoved(s);
            var unspellable := r.selector.Some? && !SelectorsAreSpellable(r.selector.value);
            && (reason == RecoveryScopeUnchanged <==> Recovers(s) && same)
            && (reason == RecoveryUnrepresentable <==> Recovers(s) && !same && unspellable)
            && (reason == RecoveryAuthorized <==> Recovers(s) && !same && !unspellable && MaintainerAgrees(s, r))
            && (reason == RecoveryAuthorizationRequired <==>
                  Recovers(s) && !same && !unspellable && !MaintainerAgrees(s, r))
  {
    hide ReviewingTransition, CorrectionTransition, ApprovedTransition, ValidatingTransition, RetryTransition,
         UnrelatedTransition, AmbiguousTransition, RepairTransition, RecoveryIsAuthorized, RecoverySelectors,
         RecoverExecution, BindingArguments, SelectorsAreSpellable, MaintainerAgrees;
    FamilyIs(s, lenses, artifacts, evidence, r);
    if r.selector.Some? { SpellableIff(r.selector.value); }
    if Recovers(s) {
      AuthorizedIff(s, r);
      if s.action == RecoverAction {
        CorrectionRecovers(s, BindingOf(s.authority.value, s.targetIdentity, r.repositoryContext), r);
      }
    }
  }

  /** What stops the review, or has to be retried first. */
  lemma {:induction false} StopsAre(s: Status, lenses: seq<string>, artifacts: Artifacts, evidence: bool, r: Request)
    ensures var reason := Build(s, lenses, artifacts, evidence, r).reason;
            var current := s.applicability == CurrentTarget && s.authority.Some?;
            var provable := s.retry.Some? && s.recovery == VerificationRetry;
            && (reason == MissingBinding <==> s.applicability == CurrentTarget && s.authority.None?)
            && (reason == OriginalRequestRequired <==> current && s.action == ReconcileAction)
            && (reason == RetryAuthorizationRequired <==> current && s.action == RetryVerificationAction && provable)
            && (reason == RetryUnavailable <==> current && s.action == RetryVerificationAction && !provable)
            && (reason == UnchangedAuthority <==>
                  current && s.action == StopAction && s.authority.value.state == CorrectionRequired)
            && (reason == NativeStopRequired <==>
                  current && s.action == StopAction && s.authority.value.state != CorrectionRequired)
            && (reason == EscalatedAuthority <==> Reached(s, Escalated))
            && (reason == ManualIntervention <==> Reached(s, OtherState))
  {
    hide ReviewingTransition, RecoveryTransition, CorrectionTransition, ApprovedTransition, ValidatingTransition,
         UnrelatedTransition, AmbiguousTransition, RepairTransition, RetryArguments;
    FamilyIs(s, lenses, artifacts, evidence, r);
  }

  // The maintainer named themselves and their reason, on one line each, and signed this repair.
  predicate RepairIsSigned(s: Status, r: Request) {
    && s.repair.candidate.Some?
    && Trimmed(r.repairActor) && |r.repairActor| <= 256 && Trimmed(r.repairReason) && |r.repairReason| <= 512
    && '\r' !in r.repairAuthorization
    && r.repairAuthorization == RepairAuthorizationText(s.repair, s.repair.candidate.value, r.repairActor, r.repairReason)
  }

  /** Without a current target: a fresh start, a choice, a repair or a stop. */
  lemma {:induction false} OthersAre(s: Status, lenses: seq<string>, artifacts: Artifacts, evidence: bool, r: Request)
    ensures var reason := Build(s, lenses, artifacts, evidence, r).reason;
            var staged := r.selector.Some? && r.selector.value.kind == WorkspaceOverlay && r.selector.value.projection == Staged;
            && (reason == StagedOverlayUnavailable <==> s.applicability == Unrelated && staged)
            && (reason == FreshTargetReady <==> s.applicability == Unrelated && !staged)
            && (reason == LineageSelectionRequired <==> s.applicability == Ambiguous)
            && (reason == CorruptedAuthority <==> s.applicability == Corrupted && s.repair.candidate.None?)
            && (reason == RepairAuthorized <==> s.applicability == Corrupted && RepairIsSigned(s, r))
            && (reason == RepairAuthorizationRequired <==>
                  s.applicability == Corrupted && s.repair.candidate.Some? && !RepairIsSigned(s, r))
  {
    hide ReviewingTransition, RecoveryTransition, CorrectionTransition, ApprovedTransition, ValidatingTransition,
         RetryTransition, StartArguments, RepairArguments, RepairAuthorizationText, Trimmed;
    FamilyIs(s, lenses, artifacts, evidence, r);
  }

  // ----- what they carry -----

  // What a caller can run.
  function OperationFor(reason: ReasonCode): Option<Operation> {
    match reason
    case FreshTargetReady => Some(ReviewStart)
    case CapturedResultsReady => Some(ReviewFinalize)
    case EvidenceReady => Some(ReviewFinalize)
    case NativeLowRisk => Some(ReviewFinalize)
    case ExactReceiptReplay => Some(ReviewFinalize)
    case ReceiptReady => Some(ReviewValidate)
    case RecoveryAuthorized => Some(ReviewRecover)
    case RepairAuthorized => Some(ReviewRepair)
    case _ => None
  }

  // What a caller is asked for, and how it is captured.
  function CaptureFor(reason: ReasonCode): Option<(InputName, Capture)> {
    match reason
    case LineageSelectionRequired => Some((LineageSelection, SelectLineage))
    case ReviewerResultsRequired => Some((ReviewerResult, CaptureResult))
    case TargetedValidationRequired => Some((TargetedValidation, RunTargetedValidation))
    case CorrectionPlanRequired => Some((CorrectionLines, PlanCorrection))
    case EvidenceRequired => Some((Evidence, CaptureEvidence))
    case GateRequired => Some((GateInput, SelectGate))
    case RecoveryAuthorizationRequired => Some((RecoveryAuthorizationInput, AuthorizeRecovery))
    case RepairAuthorizationRequired => Some((RepairAuthorizationInput, AuthorizeRepair))
    case RetryAuthorizationRequired => Some((RetryAuthorizationInput, AuthorizeVerificationRetry))
    case _ => None
  }

  // The reason fixes what is run or asked for.
  predicate Means(t: Transition) {
    && (t.Execute? <==> OperationFor(t.reason).Some?)
    && (t.Execute? ==> OperationFor(t.reason) == Some(t.execution.operation))
    && (t.Collect? <==> CaptureFor(t.reason).Some?)
    && (t.Collect? ==> t.inputs != [] && forall i :: 0 <= i < |t.inputs| ==>
                         CaptureFor(t.reason) == Some((t.inputs[i].name, t.inputs[i].capture)))
  }

  lemma FinalizeMeans(b: Binding)
    ensures forall reason, extra, pre, orders ::
              var t := Finalize(reason, b, extra, pre, orders);
              t.Execute? && t.reason == reason && t.execution.operation == ReviewFinalize
  {
  }

  lemma {:induction false} MissingInputsAsk(b: Binding, lenses: seq<string>, orders: seq<nat>,
                                            c: Option<CaptureContext>)
    ensures forall i :: 0 <= i < |MissingInputs(b, lenses, 0, orders, c)| ==>
              var input := MissingInputs(b, lenses, 0, orders, c)[i]; (input.name, input.capture) == (ReviewerResult, CaptureResult)
  {
    var inputs := MissingInputs(b, lenses, 0, orders, c);
    MissingInputsAre(b, lenses, 0, orders, c);
    forall i | 0 <= i < |inputs| ensures (inputs[i].name, inputs[i].capture) == (ReviewerResult, CaptureResult) {
      var o :| 0 <= o < |lenses| && o !in orders && inputs[i] == CaptureInput(b, lenses[o], o, c);
    }
  }

  lemma ReviewingMeans(b: Binding, lenses: seq<string>, artifacts: Artifacts, r: Request)
    ensures Means(ReviewingTransition(b, lenses, artifacts, r))
  {
    hide MissingInputs, BindingArguments, Finalize;
    if artifacts.Orders? {
      MissingInputsAsk(b, lenses, artifacts.orders, r.capture);
    }
    FinalizeMeans(b);
  }

  lemma RecoveryMeans(s: Status, b: Binding, r: Request)
    ensures Means(RecoveryTransition(s, b, r))
  {
    hide RecoverySelectors, RecoveryIsAuthorized, BindingArguments;
  }

  lemma CorrectionMeans(s: Status, b: Binding, r: Request)
    ensures Means(CorrectionTransition(s, b, r))
  {
    hide RecoveryTransition, BindingArguments;
    RecoveryMeans(s, b, r);
  }

  lemma ValidatingMeans(s: Status, b: Binding, evidence: bool)
    ensures Means(ValidatingTransition(s, b, evidence))
  {
    hide BindingArguments;
  }

  lemma ApprovedMeans(s: Status, b: Binding, r: Request)
    ensures Means(ApprovedTransition(s, b, r))
  {
    hide RecoveryTransition, BindingArguments;
    RecoveryMeans(s, b, r);
  }

  lemma OthersMean(s: Status, b: Binding, r: Request)
    ensures Means(RetryTransition(s, b)) && Means(UnrelatedTransition(s, r)) && Means(AmbiguousTransition(s))
    ensures s.repair.candidate.Some? ==> Means(RepairTransition(s, r))
  {
    hide RetryArguments, StartArguments, RepairArguments, RepairIsAuthorized;
  }

  /** What is run or asked for follows from the reason; with any other reason nothing is. */
  lemma {:induction false} ReasonsMean(s: Status, lenses: seq<string>, artifacts: Artifacts, evidence: bool, r: Request)
    ensures var t := Build(s, lenses, artifacts, evidence, r);
            && (t.Execute? <==> OperationFor(t.reason).Some?)
            && (t.Execute? ==> OperationFor(t.reason) == Some(t.execution.operation))
            && (t.Collect? <==> CaptureFor(t.reason).Some?)
            && (t.Collect? ==> t.inputs != [] && forall i :: 0 <= i < |t.inputs| ==>
                                 CaptureFor(t.reason) == Some((t.inputs[i].name, t.inputs[i].capture)))
  {
    hide ReviewingTransition, RecoveryTransition, CorrectionTransition, ApprovedTransition, ValidatingTransition,
         RetryTransition, UnrelatedTransition, AmbiguousTransition, RepairTransition, BindingTarget, BindingOf;
    OthersMean(s, Binding("", "", "", ""), r);
    if s.authority.Some? {
      var b := BindingOf(s.authority.value, BindingTarget(s, s.authority.value), r.repositoryContext);
      OthersMean(s, b, r);
      ReviewingMeans(b, lenses, artifacts, r);
      CorrectionMeans(s, b, r);
      ValidatingMeans(s, b, evidence);
      RecoveryMeans(s, b, r);
      ApprovedMeans(s, b, r);
    }
    assert Means(Build(s, lenses, artifacts, evidence, r));
  }

  // The target an operation on the current authority is bound to: once it validates, the one it is of.
  function TargetFor(s: Status, a: Authority): string {
    if (a.state == Validating || s.action == RetryVerificationAction) && s.authorityTarget != "" then s.authorityTarget
    else s.targetIdentity
  }

  /** An operation on the current authority is bound to its lineage and revision and to its target. */
  lemma {:induction false} BindsAuthority(s: Status, lenses: seq<string>, artifacts: Artifacts, evidence: bool,
                                          r: Request)
    requires s.applicability == CurrentTarget && s.authority.Some?
    ensures var t, a := Build(s, lenses, artifacts, evidence, r), s.authority.value;
            t.Execute? ==> t.execution.binding == Binding(a.lineage, a.revision, TargetFor(s, a), r.repositoryContext)
  {
    hide RecoveryIsAuthorized, RecoverySelectors, BindingArguments, MissingInputs, RetryArguments;
  }

  // A request to finalize takes up what was captured in this state, and nothing else.
  predicate TakesUp(e: Execution, lineage: string, state: State, evidence: bool, orders: seq<nat>) {
    && Lookup(e.arguments, Lineage) == Some(Text(lineage))
    && Lookup(e.arguments, CapturedResults) == (if state == Reviewing then Some(Yes) else None)
    && Lookup(e.arguments, CapturedEvidence) == (if state == Validating && evidence then Some(Yes) else None)
    && |e.arguments| == (if state == Reviewing || (state == Validating && evidence) then 2 else 1)
    && e.artifacts == (if state == Reviewing then orders else [])
    && Lookup(e.preconditions, StateName) == Some(OfState(state))
    && Lookup(e.preconditions, CapturedArtifacts) == (if state == Reviewing then Some(Complete) else None)
    && Lookup(e.preconditions, VerificationEvidence) == (if state == Validating && evidence then Some(Captured) else None)
    && Lookup(e.preconditions, RiskLevel) == (if state == Validating && !evidence then Some(Low) else None)
    && Lookup(e.preconditions, Receipt) == (if state == Approved then Some(IsPending) else None)
  }

  // The values under the names of one or two arguments.
  lemma ShortLookups(first: Argument, second: Argument)
    ensures forall n :: Lookup([first], n) == if first.name == n then Some(first.value) else None
    ensures forall n :: Lookup([first, second], n) == if first.name == n then Some(first.value)
                                                      else if second.name == n then Some(second.value) else None
  {
    var args := [first, second];
    assert args[1..] == [second];
    forall n
      ensures Lookup(args, n) == if first.name == n then Some(first.value)
                                 else if second.name == n then Some(second.value) else None
    {
      assert Lookup([second], n) == if second.name == n then Some(second.value) else None;
    }
  }

  // With one extra argument, and without.
  lemma FinalizeTakes(reason: ReasonCode, b: Binding, extra: Argument, state: State, pre: Argument, artifacts: seq<nat>)
    ensures var e := Finalize(reason, b, [extra], [Argument(StateName, OfState(state)), pre], artifacts).execution;
            && |e.arguments| == 2 && e.artifacts == artifacts
            && (forall n :: Lookup(e.arguments, n) == if n == Lineage then Some(Text(b.lineage))
                                                      else if n == extra.name then Some(extra.value) else None)
            && (forall n :: Lookup(e.preconditions, n) == if n == StateName then Some(OfState(state))
                                                          else if n == pre.name then Some(pre.value) else None)
    ensures var e := Finalize(reason, b, [], [Argument(StateName, OfState(state)), pre], artifacts).execution;
            && |e.arguments| == 1 && e.artifacts == artifacts
            && (forall n :: Lookup(e.arguments, n) == if n == Lineage then Some(Text(b.lineage)) else None)
            && (forall n :: Lookup(e.preconditions, n) == if n == StateName then Some(OfState(state))
                                                          else if n == pre.name then Some(pre.value) else None)
  {
    hide Lookup;
    var lineage := Argument(Lineage, Text(b.lineage));
    ShortLookups(lineage, extra);
    ShortLookups(Argument(StateName, OfState(state)), pre);
    assert [lineage] + [extra] == [lineage, extra] && [lineage] + [] == [lineage];
  }

  /** A request to finalize is for what was captured in the state reached. */
  lemma {:induction false} FinalizeCarries(s: Status, lenses: seq<string>, artifacts: Artifacts, evidence: bool,
                                           r: Request)
    requires var t := Build(s, lenses, artifacts, evidence, r); t.Execute? && t.execution.operation == ReviewFinalize
    ensures s.authority.Some?
    ensures TakesUp(Build(s, lenses, artifacts, evidence, r).execution, s.authority.value.lineage, s.authority.value.state,
                    evidence, if artifacts.Orders? then artifacts.orders else [])
  {
    hide TakesUp, Lookup, RecoveryTransition, RetryTransition, UnrelatedTransition, AmbiguousTransition, RepairTransition,
         MissingInputs, BindingArguments, ReceiptTransition, BindingTarget, Finalize;
    ReasonsMean(s, lenses, artifacts, evidence, r);
    FamilyIs(s, lenses, artifacts, evidence, r);
    var a := s.authority.value;
    var b := BindingOf(a, BindingTarget(s, a), r.repositoryContext);
    match a.state {
      case Reviewing => ReviewingTakesUp(b, lenses, artifacts, evidence, r);
      case Validating => ValidatingTakesUp(s, b, evidence);
      case Approved => ApprovedTakesUp(s, b, evidence, r);
      case _ =>
    }
  }

  lemma NoCaptureExecutes(b: Binding, lenses: seq<string>, orders: seq<nat>, c: Option<CaptureContext>)
    ensures !MissingCapture(b, lenses, orders, c).Execute?
  {
    hide MissingInputs;
  }

  lemma ReviewingTakesUp(b: Binding, lenses: seq<string>, artifacts: Artifacts, evidence: bool, r: Request)
    ensures var t := ReviewingTransition(b, lenses, artifacts, r);
            t.Execute? ==> artifacts.Orders? && TakesUp(t.execution, b.lineage, Reviewing, evidence, artifacts.orders)
  {
    hide Lookup, MissingCapture, Finalize;
    NoCaptureExecutes(b, lenses, if artifacts.Orders? then artifacts.orders else [], r.capture);
    if artifacts.Orders? {
      FinalizeTakes(CapturedResultsReady, b, Argument(CapturedResults, Yes), Reviewing, Argument(CapturedArtifacts, Complete),
                    artifacts.orders);
    }
  }

  lemma ValidatingTakesUp(s: Status, b: Binding, evidence: bool)
    ensures var t := ValidatingTransition(s, b, evidence);
            t.Execute? ==> forall orders :: TakesUp(t.execution, b.lineage, Validating, evidence, orders)
  {
    hide Lookup, BindingArguments, Finalize;
    FinalizeTakes(EvidenceReady, b, Argument(CapturedEvidence, Yes), Validating, Argument(VerificationEvidence, Captured), []);
    FinalizeTakes(NativeLowRisk, b, Argument(CapturedEvidence, Yes), Validating, Argument(RiskLevel, Low), []);
  }

  lemma ApprovedTakesUp(s: Status, b: Binding, evidence: bool, r: Request)
    requires s.action != RecoverAction
    ensures var t := ApprovedTransition(s, b, r);
            t.Execute? && t.execution.operation == ReviewFinalize ==>
              forall orders :: TakesUp(t.execution, b.lineage, Approved, evidence, orders)
  {
    hide Lookup, BindingArguments, Finalize, RecoveryTransition;
    FinalizeTakes(ExactReceiptReplay, b, Argument(CapturedEvidence, Yes), Approved, Argument(Receipt, IsPending), []);
  }

  // What a receipt is shown with, after the lineage.
  predicate Shows(t: Transition, lineage: string, gate: Gate, base: Option<Value>) {
    && t.Execute? && Lookup(t.execution.arguments, Lineage) == Some(Text(lineage))
    && Lookup(t.execution.arguments, GateName) == Some(OfGate(gate)) && Lookup(t.execution.arguments, BaseRef) == base
    && Lookup(t.execution.preconditions, Receipt) == Some(IsPresent)
  }

  lemma ReceiptCarries(b: Binding, r: Request)
    requires ReceiptTransition(b, r).Execute?
    ensures Shows(ReceiptTransition(b, r), b.lineage, if r.gate == UnknownGate then PreCommit else r.gate,
                  if r.selector.Some? && r.gate == PrePR && r.selector.value.baseRef != ""
                  then Some(Text(r.selector.value.baseRef)) else None)
  {
    hide Lookup;
    var lineage, gate := Argument(Lineage, Text(b.lineage)), Argument(GateName, OfGate(GateOf(r)));
    ShortLookups(lineage, gate);
    ShortLookups(Argument(StateName, OfState(Approved)), Argument(Receipt, IsPresent));
    if r.selector.Some? && r.gate == PrePR && r.selector.value.baseRef != "" {
      var base := Argument(BaseRef, Text(r.selector.value.baseRef));
      ShortLookups(base, base);
      LookupAppend([lineage, gate], [base], Lineage);
      LookupAppend([lineage, gate], [base], GateName);
      LookupAppend([lineage, gate], [base], BaseRef);
    } else {
      assert [lineage, gate] + [] == [lineage, gate];
    }
  }

  /** A receipt is shown to the gate that was asked for, or before a commit, with the base only before a pull
      request. */
  lemma {:induction false} ValidateCarries(s: Status, lenses: seq<string>, artifacts: Artifacts, evidence: bool,
                                           r: Request)
    ensures var t := Build(s, lenses, artifacts, evidence, r);
            t.reason == ReceiptReady ==>
              s.authority.Some? &&
              Shows(t, s.authority.value.lineage, if r.gate == UnknownGate then PreCommit else r.gate,
                    if r.selector.Some? && r.gate == PrePR && r.selector.value.baseRef != ""
                    then Some(Text(r.selector.value.baseRef)) else None)
  {
    hide ReviewingTransition, RecoveryTransition, CorrectionTransition, ValidatingTransition, RetryTransition,
         UnrelatedTransition, AmbiguousTransition, RepairTransition, ReceiptTransition, Shows, BindingTarget,
         BindingArguments;
    ApprovedDecides(s, lenses, artifacts, evidence, r);
    ReasonsMean(s, lenses, artifacts, evidence, r);
    if Build(s, lenses, artifacts, evidence, r).reason == ReceiptReady {
      ReceiptCarries(BindingOf(s.authority.value, BindingTarget(s, s.authority.value), r.repositoryContext), r);
    }
  }

  /** A recovery carries what was authorized, the way the authority may be recovered, and the flags that select
      the target again. */
  lemma {:induction false} RecoverCarries(s: Status, lenses: seq<string>, artifacts: Artifacts, evidence: bool,
                                          r: Request)
    requires r.selector.Some? && SelectorOf(s, r.selector.value)
    ensures var t := Build(s, lenses, artifacts, evidence, r);
            t.reason == RecoveryAuthorized ==>
              && t.Execute? && s.authority.Some?
              && Answers(t.execution.arguments, BindingOf(s.authority.value, s.targetIdentity, r.repositoryContext),
                         if s.recovery == NoRecovery then InvalidatedRecovery else s.recovery, r, r.selector.value)
              && t.execution.selectors.Some?
              && SelectorsIn(t.execution.arguments, RECOVER_SELECTORS) == t.execution.selectors.value
  {
    hide ReviewingTransition, CorrectionTransition, ApprovedTransition, ValidatingTransition, RetryTransition, UnrelatedTransition,
         AmbiguousTransition, RepairTransition, RecoverySelectors, RecoveryIsAuthorized, BindingArguments, Answers, SelectorOf,
         SelectorsIn, MaintainerAgrees, SelectorsAreSpellable;
    RecoveringDecides(s, lenses, artifacts, evidence, r);
    if Build(s, lenses, artifacts, evidence, r).reason == RecoveryAuthorized {
      var b := BindingOf(s.authority.value, s.targetIdentity, r.repositoryContext);
      if s.action == RecoverAction { CorrectionRecovers(s, b, r); }
      SpellableIff(r.selector.value);
      RecoverLookups(s, b, if s.recovery == NoRecovery then InvalidatedRecovery else s.recovery, r);
    }
  }

  // What the kind of the target adds, and the lineage.
  lemma StartArgumentsAppend(s: Status, lineage: string)
    ensures StartArguments(s, lineage) ==
            [Argument(Contract, ContractV1), Argument(Target, Text(s.targetIdentity)),
             Argument(ProjectionName, OfProjection(s.projection.projection))] + BaseArguments(s) + LineageArgument(lineage)
  {
    hide BlankText;
  }

  function BaseArguments(s: Status): seq<Argument> {
    var base := Argument(BaseRef, Text(s.projection.baseTree));
    if s.projection.kind == BaseDiff then [base, Argument(CommittedOnly, Yes)]
    else if s.projection.kind == WorkspaceOverlay then [base, Argument(Overlay, Yes)] else []
  }

  function LineageArgument(lineage: string): seq<Argument> {
    if BlankText(lineage) then [] else [Argument(Lineage, Text(lineage))]
  }

  lemma BaseLookups(s: Status)
    ensures forall n :: Lookup(BaseArguments(s), n) ==
              if n == BaseRef && s.projection.kind in {BaseDiff, WorkspaceOverlay} then Some(Text(s.projection.baseTree))
              else if n == CommittedOnly && s.projection.kind == BaseDiff then Some(Yes)
              else if n == Overlay && s.projection.kind == WorkspaceOverlay then Some(Yes) else None
  {
    var base := Argument(BaseRef, Text(s.projection.baseTree));
    ShortLookups(base, Argument(CommittedOnly, Yes));
    ShortLookups(base, Argument(Overlay, Yes));
  }

  lemma LineageLookups(lineage: string)
    ensures forall n :: Lookup(LineageArgument(lineage), n) ==
              if n == Lineage && !BlankText(lineage) then Some(Text(lineage)) else None
  {
    hide BlankText;
    var a := Argument(Lineage, Text(lineage));
    ShortLookups(a, a);
  }

  lemma ThreeLookups(first: Argument, second: Argument, third: Argument)
    ensures forall n :: Lookup([first, second, third], n) == if first.name == n then Some(first.value)
                                                             else if second.name == n then Some(second.value)
                                                             else if third.name == n then Some(third.value) else None
  {
    forall n
      ensures Lookup([first, second, third], n) == if first.name == n then Some(first.value)
                                                   else if second.name == n then Some(second.value)
                                                   else if third.name == n then Some(third.value) else None
    {
      ShortLookups(second, third);
      assert [first, second, third][1..] == [second, third];
    }
  }

  lemma {:induction false} StartLookups(s: Status, lineage: string)
    ensures var args := StartArguments(s, lineage);
            && Lookup(args, Target) == Some(Text(s.targetIdentity))
            && Lookup(args, ProjectionName) == Some(OfProjection(s.projection.projection))
            && Lookup(args, CommittedOnly) == (if s.projection.kind == BaseDiff then Some(Yes) else None)
            && Lookup(args, Overlay) == (if s.projection.kind == WorkspaceOverlay then Some(Yes) else None)
            && Lookup(args, BaseRef) == (if s.projection.kind == BaseDiff || s.projection.kind == WorkspaceOverlay
                                         then Some(Text(s.projection.baseTree)) else None)
            && Lookup(args, Lineage) == (if BlankText(lineage) then None else Some(Text(lineage)))
  {
    hide BlankText, Lookup, StartArguments, BaseArguments, LineageArgument;
    var three := [Argument(Contract, ContractV1), Argument(Target, Text(s.targetIdentity)),
                  Argument(ProjectionName, OfProjection(s.projection.projection))];
    StartArgumentsAppend(s, lineage);
    ThreeLookups(three[0], three[1], three[2]);
    BaseLookups(s);
    LineageLookups(lineage);
    forall n
      ensures Lookup(StartArguments(s, lineage), n) ==
              if Lookup(three, n).Some? then Lookup(three, n)
              else if Lookup(BaseArguments(s), n).Some? then Lookup(BaseArguments(s), n) else Lookup(LineageArgument(lineage), n)
    {
      LookupAppend(three + BaseArguments(s), LineageArgument(lineage), n);
      LookupAppend(three, BaseArguments(s), n);
    }
  }

  /** A fresh review starts on the live target, with the base and the kind of the selected one. */
  lemma {:induction false} StartCarries(s: Status, lenses: seq<string>, artifacts: Artifacts, evidence: bool,
                                        r: Request)
    ensures var t := Build(s, lenses, artifacts, evidence, r);
            t.reason == FreshTargetReady ==>
              && t.Execute? && t.execution.binding == Binding(r.startLineage, "", s.targetIdentity, "")
              && var args := t.execution.arguments;
              && Lookup(args, Target) == Some(Text(s.targetIdentity))
              && Lookup(args, ProjectionName) == Some(OfProjection(s.projection.projection))
              && Lookup(args, CommittedOnly) == (if s.projection.kind == BaseDiff then Some(Yes) else None)
              && Lookup(args, Overlay) == (if s.projection.kind == WorkspaceOverlay then Some(Yes) else None)
              && Lookup(args, BaseRef) == (if s.projection.kind == BaseDiff || s.projection.kind == WorkspaceOverlay
                                           then Some(Text(s.projection.baseTree)) else None)
              && Lookup(args, Lineage) == (if BlankText(r.startLineage) then None else Some(Text(r.startLineage)))
  {
    hide BlankText, Lookup, StartArguments;
    if s.applicability == Unrelated { StartLookups(s, r.startLineage); }
  }
}
