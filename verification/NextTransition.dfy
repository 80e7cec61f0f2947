/**
 The next-transition builder: from a status, the one thing to do next.
 */
module NextTransition {
  import opened Wrappers
  import opened ReviewText
  import opened TransitionTypes
  import AuthorizationText

  datatype CaptureContext = CaptureContext(diff: string, manifest: seq<string>, subjects: seq<Subject>)

  datatype Selector = Selector(
    kind: TargetKind, projection: Projection, baseRef: string, baseTree: string, overlay: bool,
    recoveryRepresentable: bool, recoveryProjection: Option<Projection>, prePRRepresentable: bool)

  // The fields from `successor` to `repairAuthorization` are what the caller typed.
  datatype Request = Request(
    gate: Gate, successor: string, reason: string, actor: string, authorization: string,
    repairActor: string, repairReason: string, repairAuthorization: string,
    startLineage: string, repositoryContext: string, validation: Option<ValidationRequest>, forecasted: bool,
    capture: Option<CaptureContext>, selector: Option<Selector>)

  // What is known of the captured results: the orders captured, or that they could not be verified.
  datatype Artifacts = Unverifiable | Orders(orders: seq<nat>)

  function BindingOf(a: Authority, target: string, context: string): Binding {
    Binding(a.lineage, a.revision, target, context)
  }

  function BindingArguments(b: Binding): seq<Argument> {
    [Argument(Lineage, Text(b.lineage)), Argument(ExpectedRevision, Text(b.revision)), Argument(Target, Text(b.target))]
  }

  function Plain(reason: ReasonCode, name: InputName, capture: Capture, args: seq<Argument>): Transition {
    Collect(reason, [Input(name, Fixed(name), capture, args, None, None)])
  }

  function Finalize(reason: ReasonCode, b: Binding, extra: seq<Argument>, preconditions: seq<Argument>,
                    artifacts: seq<nat>): Transition {
    Execute(reason, Execution(ReviewFinalize, [Argument(Lineage, Text(b.lineage))] + extra, None, preconditions, b, artifacts))
  }

  function StartArguments(s: Status, lineage: string): seq<Argument> {
    var head := [Argument(Contract, ContractV1), Argument(Target, Text(s.targetIdentity)),
                 Argument(ProjectionName, OfProjection(s.projection.projection))];
    var base := match s.projection.kind
      case BaseDiff => [Argument(BaseRef, Text(s.projection.baseTree)), Argument(CommittedOnly, Yes)]
      case WorkspaceOverlay => [Argument(BaseRef, Text(s.projection.baseTree)), Argument(Overlay, Yes)]
      case _ => [];
    head + base + (if BlankText(lineage) then [] else [Argument(Lineage, Text(lineage))])
  }

  function GateOf(r: Request): Gate {
    if r.gate == UnknownGate then PreCommit else r.gate
  }

  // ----- reviewing -----

  function CaptureInput(b: Binding, lens: string, order: nat, context: Option<CaptureContext>): Input {
    var args := BindingArguments(b) + (if b.context != "" then [Argument(RepositoryContext, Text(b.context))] else [])
                + [Argument(Lens, Text(lens)), Argument(Order, Position(order))];
    var frozen := if context.Some? && order < |context.value.subjects|
                  then Some(Frozen(context.value.subjects[order], context.value.diff, context.value.manifest)) else None;
    Input(ReviewerResult, Fixed(ReviewerResult), CaptureResult, args, frozen, None)
  }

  // One input for every selected lens without a captured result, in selected order.
  function MissingInputs(b: Binding, lenses: seq<string>, from: nat, orders: seq<nat>,
                         context: Option<CaptureContext>): (r: seq<Input>)
    requires from <= |lenses|
    decreases |lenses| - from
  {
    if from == |lenses| then []
    else (if from in orders then [] else [CaptureInput(b, lenses[from], from, context)])
         + MissingInputs(b, lenses, from + 1, orders, context)
  }

  function MissingCapture(b: Binding, lenses: seq<string>, orders: seq<nat>,
                          context: Option<CaptureContext>): Transition {
    var inputs := MissingInputs(b, lenses, 0, orders, context);
    if inputs == [] then Stop(CaptureUnavailable) else Collect(ReviewerResultsRequired, inputs)
  }

  function ReviewingTransition(b: Binding, lenses: seq<string>, artifacts: Artifacts, r: Request): Transition {
    if artifacts.Unverifiable? then Stop(ArtifactsUnverifiable)
    else if |artifacts.orders| != |lenses| then MissingCapture(b, lenses, artifacts.orders, r.capture)
    else Finalize(CapturedResultsReady, b, [Argument(CapturedResults, Yes)],
                  [Argument(StateName, OfState(Reviewing)), Argument(CapturedArtifacts, Complete)], artifacts.orders)
  }

  // ----- correcting and validating -----

  function CorrectionTransition(s: Status, b: Binding, r: Request): Transition {
    if s.action == RecoverAction then RecoveryTransition(s, b, r)
    else if r.validation.Some? then
      Collect(TargetedValidationRequired,
              [Input(TargetedValidation, Fixed(TargetedValidation), RunTargetedValidation,
                     BindingArguments(b.(target := r.validation.value.correctionTarget)), None, r.validation)])
    else if r.forecasted then Stop(CorrectedCandidateUnavailable)
    else Plain(CorrectionPlanRequired, CorrectionLines, PlanCorrection, BindingArguments(b))
  }

  function ValidatingTransition(s: Status, b: Binding, evidence: bool): Transition {
    var validating := Argument(StateName, OfState(Validating));
    if evidence then
      Finalize(EvidenceReady, b, [Argument(CapturedEvidence, Yes)], [validating, Argument(VerificationEvidence, Captured)], [])
    else if s.lowRisk then Finalize(NativeLowRisk, b, [], [validating, Argument(RiskLevel, Low)], [])
    else Plain(EvidenceRequired, Evidence, CaptureEvidence, BindingArguments(b))
  }

  // ----- approved -----

  function ReceiptTransition(b: Binding, r: Request): Transition {
    var gate := GateOf(r);
    if r.selector.Some? && gate == PrePR && !r.selector.value.prePRRepresentable then Stop(PrePRUnrepresentable)
    else
      var selectors := if r.selector.Some? && gate == PrePR && r.selector.value.baseRef != ""
                       then [Argument(BaseRef, Text(r.selector.value.baseRef))] else [];
      Execute(ReceiptReady,
              Execution(ReviewValidate, [Argument(Lineage, Text(b.lineage)), Argument(GateName, OfGate(gate))] + selectors,
                        if r.selector.Some? then Some(selectors) else None,
                        [Argument(StateName, OfState(Approved)), Argument(Receipt, IsPresent)], b, []))
  }

  function ApprovedTransition(s: Status, b: Binding, r: Request): Transition {
    if s.action == RecoverAction then RecoveryTransition(s, b, r)
    else if s.receipt == Present then ReceiptTransition(b, r)
    else if s.replay == ExactReplaySafe then
      Finalize(ExactReceiptReplay, b, [], [Argument(StateName, OfState(Approved)), Argument(Receipt, IsPending)], [])
    else Plain(GateRequired, GateInput, SelectGate, BindingArguments(b))
  }

  // ----- recovery -----

  // The selectors a recovery command needs to mean the same target; None when it cannot.
  function RecoverySelectors(sel: Selector): Option<seq<Argument>> {
    var projection := if sel.recoveryProjection.Some?
                      then [Argument(ProjectionName, OfProjection(sel.recoveryProjection.value))] else [];
    if !sel.recoveryRepresentable then None
    else
      match sel.kind
      case CurrentChanges =>
        if sel.baseRef != "" || sel.baseTree != "" || sel.overlay then None else Some(projection)
      case BaseDiff =>
        if sel.baseRef == "" || sel.baseTree != "" || sel.overlay then None
        else Some([Argument(BaseRef, Text(sel.baseRef)), Argument(CommittedOnly, Yes)] + projection)
      case WorkspaceOverlay =>
        if !sel.overlay || (sel.baseRef == "") == (sel.baseTree == "") then None
        else
          var base := [Argument(BaseRef, Text(if sel.baseRef == "" then sel.baseTree else sel.baseRef))];
          Some(base + projection + (if sel.recoveryProjection == Some(Staged) then [Argument(Overlay, Yes)] else []))
      case OtherKind => None
  }

  function ExpectedAuthorization(b: Binding, successor: string, actor: string, reason: string): string {
    AuthorizationText.Authorization(b.lineage, b.revision, b.target, successor, actor, reason)
  }

  predicate RecoveryIsAuthorized(b: Binding, r: Request) {
    && r.successor != "" && r.reason != "" && r.actor != ""
    && r.authorization == ExpectedAuthorization(b, if r.selector.Some? then r.successor else "", r.actor, r.reason)
  }

  function RecoverExecution(state: State, b: Binding, recovery: Recovery, r: Request,
                            selectors: seq<Argument>): Execution {
    Execution(ReviewRecover,
              [Argument(PredecessorLineage, Text(b.lineage)), Argument(ExpectedPredecessorRevision, Text(b.revision)),
               Argument(SuccessorLineage, Text(r.successor)), Argument(Disposition, OfRecovery(recovery)),
               Argument(Reason, Text(r.reason)), Argument(Actor, Text(r.actor)),
               Argument(MaintainerAuthorization, Text(r.authorization))] + selectors,
              if r.selector.Some? then Some(selectors) else None,
              [Argument(StateName, OfState(state)), Argument(RecoveryAuthorization, Provided)], b, [])
  }

  function RecoveryTransition(s: Status, b: Binding, r: Request): Transition {
    if s.authority.None? then Stop(MissingBinding)
    else
      var recovery := if s.recovery == NoRecovery then InvalidatedRecovery else s.recovery;
      if r.selector.Some? && s.targetIdentity == AuthorityTargetIdentity(s) then Stop(RecoveryScopeUnchanged)
      else if r.selector.Some? && RecoverySelectors(r.selector.value).None? then Stop(RecoveryUnrepresentable)
      else
        var selectors := if r.selector.Some? then RecoverySelectors(r.selector.value).value else [];
        if RecoveryIsAuthorized(b, r) then Execute(RecoveryAuthorized, RecoverExecution(s.authority.value.state, b, recovery, r, selectors))
        else Plain(RecoveryAuthorizationRequired, RecoveryAuthorizationInput, AuthorizeRecovery,
                   BindingArguments(b) + [Argument(Disposition, OfRecovery(recovery))])
  }

  // ----- repair and verification retry -----

  const ACTOR_LIMIT: nat := 256
  const REASON_LIMIT: nat := 512

  predicate Trimmed(s: string) {
    s != "" && !Space(s[0]) && !Space(s[|s| - 1]) && '\n' !in s && '\r' !in s
  }

  function RepairAuthorizationText(p: Repair, c: Candidate, actor: string, reason: string): string {
    p.schema + "\nrepository=" + p.binding + "\nclass=" + p.repairClass + "\nlineage=" + c.lineage + "\nrevision=" + c.revision
    + "\ncause=" + p.cause + "\ndisposition=" + p.disposition + "\nactor=" + actor + "\nreason=" + reason
  }

  predicate RepairIsAuthorized(p: Repair, c: Candidate, r: Request) {
    && Trimmed(r.repairActor) && |r.repairActor| <= ACTOR_LIMIT
    && Trimmed(r.repairReason) && |r.repairReason| <= REASON_LIMIT
    && '\r' !in r.repairAuthorization
    && r.repairAuthorization == RepairAuthorizationText(p, c, r.repairActor, r.repairReason)
  }

  function RepairArguments(p: Repair, c: Candidate): seq<Argument> {
    [Argument(Class, Text(p.repairClass)), Argument(Lineage, Text(c.lineage)), Argument(ExpectedRevision, Text(c.revision)),
     Argument(Cause, Text(p.cause)), Argument(Disposition, Text(p.disposition)), Argument(RepositoryBinding, Text(p.binding))]
  }

  function RepairTransition(s: Status, r: Request): Transition {
    var p := s.repair;
    if p.candidate.None? then Stop(CorruptedAuthority)
    else
      var c := p.candidate.value;
      if RepairIsAuthorized(p, c, r) then
        Execute(RepairAuthorized,
                Execution(ReviewRepair,
                          RepairArguments(p, c) + [Argument(Actor, Text(r.repairActor)), Argument(Reason, Text(r.repairReason)),
                                                   Argument(MaintainerAuthorization, Provided)],
                          None,
                          [Argument(RepairStatus, Eligible), Argument(UniqueCandidate, Yes),
                           Argument(CurrentHead, Text(c.revision)), Argument(RepairAuthorization, Provided)],
                          Binding(c.lineage, c.revision, s.targetIdentity, ""), []))
      else
        Collect(RepairAuthorizationRequired,
                [Input(RepairAuthorizationInput, Given(p.schema), AuthorizeRepair, RepairArguments(p, c), None, None)])
  }

  function RetryArguments(b: Binding, p: VerificationRetryProof): seq<Argument> {
    [Argument(PredecessorLineage, Text(b.lineage)), Argument(ExpectedPredecessorRevision, Text(b.revision)),
     Argument(ValidatingRevision, Text(p.validatingRevision)), Argument(Target, Text(p.target)),
     Argument(FailedEvidenceHash, Text(p.failedEvidence)), Argument(FinalizeRequestDigest, Text(p.finalizeRequest)),
     Argument(IncidentSchema, Text(p.incidentSchema)), Argument(IncidentClass, Text(p.incidentClass))]
  }

  function RetryTransition(s: Status, b: Binding): Transition {
    if s.retry.None? || s.recovery != VerificationRetry then Stop(RetryUnavailable)
    else Plain(RetryAuthorizationRequired, RetryAuthorizationInput, AuthorizeVerificationRetry, RetryArguments(b, s.retry.value))
  }

  // ----- the decision -----

  function UnrelatedTransition(s: Status, r: Request): Transition {
    if r.selector.Some? && r.selector.value.kind == WorkspaceOverlay && r.selector.value.projection == Staged then
      Stop(StagedOverlayUnavailable)
    else
      Execute(FreshTargetReady,
              Execution(ReviewStart, StartArguments(s, r.startLineage), None,
                        [Argument(TargetIdentity, Text(s.targetIdentity))],
                        Binding(r.startLineage, "", s.targetIdentity, ""), []))
  }

  function AmbiguousTransition(s: Status): Transition {
    Plain(LineageSelectionRequired, LineageSelection, SelectLineage,
          [Argument(TargetIdentity, Text(s.targetIdentity)),
           Argument(ProjectionName, OfProjection(s.projection.projection)),
           Argument(BaseTree, Text(s.projection.baseTree)),
           Argument(CandidateTree, Text(s.projection.candidateTree)),
           Argument(Candidates, Names(s.candidates))])
  }

  function BindingTarget(s: Status, a: Authority): string {
    if s.action == RetryVerificationAction || a.state == Validating then AuthorityTargetIdentity(s) else s.targetIdentity
  }

  function CurrentTransition(s: Status, a: Authority, lenses: seq<string>, artifacts: Artifacts, evidence: bool,
                             r: Request): Transition {
    var b := BindingOf(a, BindingTarget(s, a), r.repositoryContext);
    if s.action == ReconcileAction then Stop(OriginalRequestRequired)
    else if s.action == RetryVerificationAction then RetryTransition(s, b)
    else if s.action == StopAction then
      Stop(if a.state == CorrectionRequired then UnchangedAuthority else NativeStopRequired)
    else
      match a.state
      case Reviewing => ReviewingTransition(b, lenses, artifacts, r)
      case CorrectionRequired => CorrectionTransition(s, b, r)
      case Validating => ValidatingTransition(s, b, evidence)
      case Invalidated => RecoveryTransition(s, b, r)
      case Approved => ApprovedTransition(s, b, r)
      case Escalated => Stop(EscalatedAuthority)
      case OtherState => Stop(ManualIntervention)
  }

  /** The builder, branch for branch. */
  function Build(s: Status, lenses: seq<string>, artifacts: Artifacts, evidence: bool, r: Request): Transition {
    match s.applicability
    case Unrelated => UnrelatedTransition(s, r)
    case Ambiguous => AmbiguousTransition(s)
    case Corrupted => if s.repair.candidate.Some? then RepairTransition(s, r) else Stop(CorruptedAuthority)
    case CurrentTarget =>
      if s.authority.None? then Stop(MissingBinding)
      else CurrentTransition(s, s.authority.value, lenses, artifacts, evidence, r)
  }
}
