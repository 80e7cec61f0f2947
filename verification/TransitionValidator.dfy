/**
 The validators of a next transition, written independently of the builder: what a transition must
 look like on its own, and how it must fit the status that carries it.
 */
module TransitionValidator {
  import opened Wrappers
  import opened ReviewText
  import opened TransitionTypes
  import NextTransition
  import AuthorizationText

  const HANDLE_PREFIX := "rctx1_"

  // An opaque repository handle.
  predicate ValidHandle(s: string) {
    && |s| == |HANDLE_PREFIX| + 64 && s[..|HANDLE_PREFIX|] == HANDLE_PREFIX
    && forall i :: |HANDLE_PREFIX| <= i < |s| ==> LowerHex(s[i])
  }

  predicate SupportedLens(s: string) {
    s == "review-risk" || s == "review-resilience" || s == "review-readability" || s == "review-reliability"
  }

  // A base selector: one word, not an absolute path, not a flag.
  predicate ValidSelectorText(s: string) {
    && s != "" && (forall i :: 0 <= i < |s| ==> !Space(s[i]) && s[i] != 0 as char)
    && s[0] != '/' && s[0] != '-'
  }

  predicate Nonblank(args: seq<Argument>) {
    forall i :: 0 <= i < |args| ==> !Blank(args[i].value)
  }

  function TextOf(args: seq<Argument>, n: Name): string {
    match Lookup(args, n)
    case Some(Text(s)) => s
    case _ => ""
  }

  predicate HasName(args: seq<Argument>, n: Name) {
    Lookup(args, n).Some?
  }

  // ----- one input of a collection -----

  predicate ValidSubject(f: Frozen) {
    && ValidLineage(f.subject.lineage) && ValidDigest(f.subject.revision) && ValidDigest(f.subject.target)
    && SupportedLens(f.subject.lens) && f.subject.diff == f.diff && f.subject.manifest == f.manifest
  }

  predicate ValidCaptureInput(i: Input) {
    && |i.arguments| == 6 && SupportedLens(TextOf(i.arguments, Lens))
    && (match Lookup(i.arguments, Order) case Some(Position(order)) => i.frozen.Some? && i.frozen.value.subject.order == order
                                         case _ => false)
    && ValidDigest(TextOf(i.arguments, ExpectedRevision)) && ValidDigest(TextOf(i.arguments, Target))
    && !BlankText(TextOf(i.arguments, Lineage)) && ValidHandle(TextOf(i.arguments, RepositoryContext))
    && i.frozen.Some? && ValidSubject(i.frozen.value)
    && i.frozen.value.subject.lineage == TextOf(i.arguments, Lineage)
    && i.frozen.value.subject.revision == TextOf(i.arguments, ExpectedRevision)
    && i.frozen.value.subject.target == TextOf(i.arguments, Target)
    && i.frozen.value.subject.lens == TextOf(i.arguments, Lens)
  }

  predicate ValidRequestInput(i: Input) {
    i.validation.Some? ==>
      && i.schema == Fixed(TargetedValidation) && i.capture == RunTargetedValidation
      && TextOf(i.arguments, Lineage) == i.validation.value.lineage
      && TextOf(i.arguments, ExpectedRevision) == i.validation.value.revision
      && TextOf(i.arguments, Target) == i.validation.value.correctionTarget && i.validation.value.wellFormed
  }

  predicate ValidInput(i: Input) {
    && (i.schema.Given? ==> !BlankText(i.schema.schema))
    && i.arguments != [] && Nonblank(i.arguments) && Distinct(i.arguments)
    && (if i.capture == CaptureResult then ValidCaptureInput(i) else i.frozen.None?)
    && (i.capture == RunTargetedValidation ==> i.validation.Some?)
    && ValidRequestInput(i)
  }

  // ----- an execution -----

  predicate SelectorName(n: Name) {
    n == BaseRef || n == CommittedOnly || n == ProjectionName || n == Overlay
  }

  // The arguments are exactly the required names and the selectors.
  predicate Exact(args: seq<Argument>, required: seq<Name>, selectors: seq<Argument>) {
    && |args| == |required| + |selectors|
    && (forall i :: 0 <= i < |required| ==> HasName(args, required[i]))
    && (forall i :: 0 <= i < |selectors| ==>
          SelectorName(selectors[i].name) && Lookup(args, selectors[i].name) == Some(selectors[i].value))
  }

  // The selectors among the arguments, in the fixed order of their names.
  function SelectorsIn(args: seq<Argument>, names: seq<Name>): seq<Argument> {
    if names == [] then []
    else
      match Lookup(args, names[0])
      case Some(v) => [Argument(names[0], v)] + SelectorsIn(args, names[1..])
      case None => SelectorsIn(args, names[1..])
  }

  const VALIDATE_REQUIRED: seq<Name> := [Lineage, GateName]
  const RECOVER_REQUIRED: seq<Name> :=
    [PredecessorLineage, ExpectedPredecessorRevision, SuccessorLineage, Disposition, Reason, Actor, MaintainerAuthorization]
  const RECOVER_SELECTORS: seq<Name> := [BaseRef, CommittedOnly, ProjectionName, Overlay]

  predicate ValidValidateExecution(e: Execution) {
    var args := e.arguments;
    var want := SelectorsIn(args, [BaseRef]);
    && (e.selectors.Some? ==> e.selectors.value == want)
    && Exact(args, VALIDATE_REQUIRED, want)
    && Lookup(args, Lineage) == Some(Text(e.binding.lineage))
    && (match Lookup(args, GateName)
        case Some(OfGate(g)) =>
          g != UnknownGate && (HasName(args, BaseRef) ==> g == PrePR && ValidSelectorText(TextOf(args, BaseRef)))
        case _ => false)
  }

  predicate ValidRecoverSelectors(args: seq<Argument>) {
    && (HasName(args, BaseRef) ==> ValidSelectorText(TextOf(args, BaseRef)))
    && (HasName(args, CommittedOnly) ==> HasName(args, BaseRef) && Lookup(args, CommittedOnly) == Some(Yes))
    && (HasName(args, ProjectionName) ==> Lookup(args, ProjectionName).value.OfProjection?)
    && (HasName(args, Overlay) ==>
          HasName(args, BaseRef) && !HasName(args, CommittedOnly)
          && Lookup(args, ProjectionName) == Some(OfProjection(Staged)) && Lookup(args, Overlay) == Some(Yes))
  }

  predicate ValidRecoverExecution(e: Execution) {
    var args := e.arguments;
    var want := SelectorsIn(args, RECOVER_SELECTORS);
    && (e.selectors.Some? ==> e.selectors.value == want)
    && Exact(args, RECOVER_REQUIRED, want)
    && Lookup(args, PredecessorLineage) == Some(Text(e.binding.lineage))
    && Lookup(args, ExpectedPredecessorRevision) == Some(Text(e.binding.revision))
    && ValidLineage(TextOf(args, SuccessorLineage)) && TextOf(args, SuccessorLineage) != e.binding.lineage
    && (match Lookup(args, Disposition)
        case Some(OfRecovery(d)) => d == ScopeChanged || d == InvalidatedRecovery || d == EscalatedRecovery
        case _ => false)
    && Lookup(args, MaintainerAuthorization) ==
         Some(Text(AuthorizationText.Authorization(e.binding.lineage, e.binding.revision, e.binding.target,
                                                   if e.selectors.Some? then TextOf(args, SuccessorLineage) else "",
                                                   TextOf(args, Actor), TextOf(args, Reason))))
    && ValidRecoverSelectors(args)
  }

  predicate ValidExecution(e: Execution) {
    && e.preconditions != [] && ValidDigest(e.binding.target)
    && (e.operation != ReviewStart ==> !BlankText(e.binding.lineage) && ValidDigest(e.binding.revision))
    && (e.binding.context != "" ==> ValidHandle(e.binding.context))
    && Nonblank(e.arguments) && Nonblank(e.preconditions) && Distinct(e.arguments)
    && (e.operation == ReviewValidate ==> ValidValidateExecution(e))
    && (e.operation == ReviewRecover ==> ValidRecoverExecution(e))
  }

  /** A transition that is well formed on its own. */
  predicate Valid(t: Transition) {
    match t
    case Stop(_) => true
    case Collect(_, inputs) => inputs != [] && forall i :: 0 <= i < |inputs| ==> ValidInput(inputs[i])
    case Execute(_, e) => ValidExecution(e)
  }

  // ----- against the status -----

  predicate StartFits(s: Status, t: Transition) {
    && s.projection.kind != OtherKind
    && t.Execute? && t.reason == FreshTargetReady && t.execution.operation == ReviewStart && t.execution.artifacts == []
    && Distinct(t.execution.arguments)
    && var lineage := TextOf(t.execution.arguments, Lineage);
       && (lineage != "" ==> ValidLineage(lineage))
       && t.execution.arguments == NextTransition.StartArguments(s, lineage)
       && t.execution.preconditions == [Argument(TargetIdentity, Text(s.targetIdentity))]
       && t.execution.binding == Binding(lineage, "", s.targetIdentity, "")
  }

  predicate ValidateFits(s: Status, args: seq<Argument>) {
    && !(s.projection.kind == CurrentChanges && HasName(args, BaseRef))
    && !(Lookup(args, GateName) == Some(OfGate(PrePR)) && s.projection.kind == BaseDiff && !HasName(args, BaseRef))
  }

  predicate RecoverFits(s: Status, args: seq<Argument>) {
    var base, committed, overlay := HasName(args, BaseRef), HasName(args, CommittedOnly), HasName(args, Overlay);
    var staged := Lookup(args, ProjectionName) == Some(OfProjection(Staged));
    && (match s.projection.kind
        case CurrentChanges => !base && !committed && !overlay
        case BaseDiff => base && committed && !overlay
        case WorkspaceOverlay => base && !committed && (if s.projection.projection == Staged then staged && overlay else !overlay)
        case OtherKind => false)
    && (s.projection.kind != CurrentChanges ==> TextOf(args, BaseRef) != "")
    && (HasName(args, ProjectionName) ==> Lookup(args, ProjectionName) == Some(OfProjection(s.projection.projection)))
  }

  predicate SelectorFits(s: Status, e: Execution) {
    var args := e.arguments;
    e.operation == ReviewValidate || e.operation == ReviewRecover ==>
      && Distinct(args)
      && (e.selectors.Some? ==> forall i :: 0 <= i < |e.selectors.value| ==>
            Lookup(args, e.selectors.value[i].name) == Some(e.selectors.value[i].value))
      && (e.selectors.None? ==> !HasName(args, BaseRef) && !HasName(args, CommittedOnly) && !HasName(args, ProjectionName)
                                && !HasName(args, Overlay))
      && (HasName(args, Overlay) ==> Lookup(args, Overlay) == Some(Yes))
      && (if e.operation == ReviewValidate then ValidateFits(s, args) else RecoverFits(s, args))
  }

  predicate RepairFits(s: Status, t: Transition) {
    s.repair.candidate.Some? &&
    var c := s.repair.candidate.value;
    match t
    case Stop(_) => false
    case Collect(reason, inputs) =>
      && reason == RepairAuthorizationRequired && |inputs| == 1
      && inputs[0].name == RepairAuthorizationInput && inputs[0].schema == Given(s.repair.schema)
      && inputs[0].capture == AuthorizeRepair
      && Distinct(inputs[0].arguments) && |inputs[0].arguments| == 6 && AnswersProvider(inputs[0].arguments, s.repair, c)
    case Execute(reason, e) =>
      && reason == RepairAuthorized && e.operation == ReviewRepair
      && e.binding.lineage == c.lineage && e.binding.revision == c.revision
      && Distinct(e.arguments) && |e.arguments| == 9
      && AnswersProvider(e.arguments, s.repair, c)
      && !BlankText(TextOf(e.arguments, Actor)) && !BlankText(TextOf(e.arguments, Reason))
      && Lookup(e.arguments, MaintainerAuthorization) == Some(Provided)
      && Distinct(e.preconditions) && |e.preconditions| == 4 && RepairMayProceed(e.preconditions, c)
  }

  // As the repair assessment has it.
  predicate AnswersProvider(args: seq<Argument>, p: Repair, c: Candidate) {
    && Lookup(args, Class) == Some(Text(p.repairClass)) && Lookup(args, Lineage) == Some(Text(c.lineage))
    && Lookup(args, ExpectedRevision) == Some(Text(c.revision)) && Lookup(args, Cause) == Some(Text(p.cause))
    && Lookup(args, Disposition) == Some(Text(p.disposition)) && Lookup(args, RepositoryBinding) == Some(Text(p.binding))
  }

  predicate RepairMayProceed(args: seq<Argument>, c: Candidate) {
    && Lookup(args, RepairStatus) == Some(Eligible) && Lookup(args, UniqueCandidate) == Some(Yes)
    && Lookup(args, CurrentHead) == Some(Text(c.revision)) && Lookup(args, RepairAuthorization) == Some(Provided)
  }

  // As the proof of a retry has it.
  predicate AnswersRetry(args: seq<Argument>, a: Authority, p: VerificationRetryProof) {
    && Lookup(args, PredecessorLineage) == Some(Text(a.lineage))
    && Lookup(args, ExpectedPredecessorRevision) == Some(Text(a.revision))
    && Lookup(args, ValidatingRevision) == Some(Text(p.validatingRevision)) && Lookup(args, Target) == Some(Text(p.target))
    && Lookup(args, FailedEvidenceHash) == Some(Text(p.failedEvidence))
    && Lookup(args, FinalizeRequestDigest) == Some(Text(p.finalizeRequest))
    && Lookup(args, IncidentSchema) == Some(Text(p.incidentSchema))
    && Lookup(args, IncidentClass) == Some(Text(p.incidentClass))
  }

  predicate RetryFits(s: Status, t: Transition) {
    s.retry.Some? && s.authority.Some? && t.Collect? && t.reason == RetryAuthorizationRequired && |t.inputs| == 1 &&
    var a, p := s.authority.value, s.retry.value;
    && t.inputs[0].name == RetryAuthorizationInput && t.inputs[0].schema == Fixed(RetryAuthorizationInput)
    && t.inputs[0].capture == AuthorizeVerificationRetry
    && Distinct(t.inputs[0].arguments) && |t.inputs[0].arguments| == 8 && AnswersRetry(t.inputs[0].arguments, a, p)
  }

  // Evidence is collected for the frozen authority, reviewer results for the frozen initial target.
  predicate InputFits(s: Status, i: Input) {
    && (i.capture == CaptureEvidence ==>
          Distinct(i.arguments) && TextOf(i.arguments, Target) == AuthorityTargetIdentity(s))
    && (i.capture == CaptureResult ==>
          && Distinct(i.arguments) && TextOf(i.arguments, Target) == s.projection.initialIdentity && i.frozen.Some?
          && i.frozen.value.subject.target == s.projection.initialIdentity && i.frozen.value.manifest == s.projection.paths)
  }

  predicate UnrelatedFits(s: Status, t: Transition) {
    if s.action == StopAction then t == Stop(StagedOverlayUnavailable) else StartFits(s, t)
  }

  /** A transition that fits the status it is published with. */
  predicate Fits(s: Status, t: Transition) {
    if s.applicability == Unrelated then UnrelatedFits(s, t)
    else
      var target := if s.authority.Some? && s.authority.value.state == Validating then AuthorityTargetIdentity(s)
                    else s.targetIdentity;
      && (t.Execute? ==> t.execution.binding.target == target && SelectorFits(s, t.execution))
      && (s.repair.candidate.Some? ==> RepairFits(s, t))
      && (s.retry.Some? ==> RetryFits(s, t))
      && (t.Collect? ==> forall i :: 0 <= i < |t.inputs| ==> InputFits(s, t.inputs[i]))
  }
}
