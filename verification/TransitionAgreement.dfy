/**
 The builder meets its validators: for every status and request the program can put together, with any
 text the caller typed, exactly when the transition it builds is accepted.
 */
module TransitionAgreement {
  import opened Wrappers
  import opened ReviewText
  import opened TransitionTypes
  import opened NextTransition
  import opened TransitionValidator
  import AuthorizationText

  // ----- what the program puts together -----

  // A status as the target assessment produces it.
  predicate Assessed(s: Status) {
    && ValidDigest(s.targetIdentity) && ValidDigest(s.projection.initialIdentity)
    && ValidGitTree(s.projection.baseTree) && ValidGitTree(s.projection.candidateTree)
    && s.projection.kind != OtherKind
    && (s.authorityTarget == "" || ValidDigest(s.authorityTarget))
    && (s.applicability == CurrentTarget <==> s.authority.Some?)
    && (s.authority.Some? ==> ValidLineage(s.authority.value.lineage) && ValidDigest(s.authority.value.revision))
    && (s.applicability == Unrelated ==>
          if s.projection.kind == WorkspaceOverlay && s.projection.projection == Staged then s.action == StopAction
          else s.action == StartAction)
    && (s.applicability == Ambiguous ==> |s.candidates| >= 2)
    && (s.repair.candidate.Some? ==> s.applicability == Corrupted && AssessedRepair(s.repair))
    && (s.action == RecoverAction ==>
          s.recovery == ScopeChanged || s.recovery == InvalidatedRecovery || s.recovery == EscalatedRecovery)
    && (s.retry.Some? <==> s.action == RetryVerificationAction)
    && (s.retry.Some? ==> s.applicability == CurrentTarget && s.recovery == VerificationRetry && AssessedRetry(s.retry.value))
    && (s.recovery == VerificationRetry ==> s.retry.Some?)
    && (s.recovery == ScopeChanged || s.recovery == InvalidatedRecovery || s.recovery == EscalatedRecovery ==>
          s.action == RecoverAction)
  }

  predicate AssessedRepair(p: Repair) {
    && p.candidate.Some? && ValidLineage(p.candidate.value.lineage) && ValidDigest(p.candidate.value.revision)
    && !BlankText(p.repairClass) && !BlankText(p.cause) && !BlankText(p.disposition) && ValidDigest(p.binding)
    && !BlankText(p.schema)
  }

  predicate AssessedRetry(p: VerificationRetryProof) {
    && ValidDigest(p.validatingRevision) && ValidDigest(p.target) && ValidDigest(p.failedEvidence)
    && ValidDigest(p.finalizeRequest) && !BlankText(p.incidentSchema) && !BlankText(p.incidentClass)
  }

  // The selector of the status command agrees with the target it selected.
  predicate SelectorOf(s: Status, sel: Selector) {
    && sel.kind == s.projection.kind && sel.projection == s.projection.projection
    && (BlankText(sel.baseRef) ==> sel.baseRef == "") && (sel.baseTree != "" ==> ValidGitTree(sel.baseTree))
    && (sel.recoveryProjection.Some? ==> sel.recoveryProjection.value == sel.projection)
    && match sel.kind
       case CurrentChanges => sel.baseRef == "" && sel.baseTree == "" && !sel.overlay
       case BaseDiff => sel.baseRef != "" && sel.baseTree == "" && !sel.overlay
       case WorkspaceOverlay => sel.overlay && (sel.baseRef == "") != (sel.baseTree == "")
       case OtherKind => false
  }

  // The frozen material of each selected lens, derived from the authority.
  predicate CaptureOf(s: Status, a: Authority, lenses: seq<string>, c: CaptureContext) {
    && |c.subjects| == |lenses|
    && forall i :: 0 <= i < |lenses| ==>
         && SupportedLens(lenses[i])
         && c.subjects[i] == Subject(a.lineage, a.revision, s.projection.initialIdentity, lenses[i], i, c.diff, c.manifest)
  }

  // A request as the status command fills it in; what the caller typed is unconstrained.
  predicate Prepared(s: Status, lenses: seq<string>, artifacts: Artifacts, r: Request) {
    r.selector.Some? && SelectorOf(s, r.selector.value) && BoundaryChecked(r) && Filled(s, lenses, artifacts, r)
  }

  // Before a pull request the base was looked up among the branches the remotes advertise, none of which is
  // more than one word, a path from the root or a flag.
  predicate BoundaryChecked(r: Request) {
    r.selector.Some? && GateOf(r) == PrePR && r.selector.value.prePRRepresentable && r.selector.value.baseRef != "" ==>
      ValidSelectorText(r.selector.value.baseRef)
  }

  // All of it but the selector.
  predicate Filled(s: Status, lenses: seq<string>, artifacts: Artifacts, r: Request) {
    && (r.startLineage == "" || ValidLineage(r.startLineage))
    && (r.repositoryContext == "" || ValidHandle(r.repositoryContext))
    && (s.authority.Some? ==>
          var a := s.authority.value;
          && (a.state == Reviewing && artifacts.Orders? ==>
                ValidHandle(r.repositoryContext) && r.capture.Some? && CaptureOf(s, a, lenses, r.capture.value))
          && (r.validation.Some? ==>
                r.validation.value.lineage == a.lineage && r.validation.value.revision == a.revision &&
                ValidDigest(r.validation.value.correctionTarget) && r.validation.value.wellFormed))
  }

  // ----- when the builder and the validators agree -----

  // The live target is the frozen one. It need not be: a review started over the working tree is also
  // current for the same tree selected by a base.
  predicate FrozenTargetIsLive(s: Status, c: Option<CaptureContext>) {
    s.targetIdentity == s.projection.initialIdentity && (c.Some? ==> c.value.manifest == s.projection.paths)
  }

  function BaseOf(sel: Selector): string {
    if sel.baseRef == "" then sel.baseTree else sel.baseRef
  }

  // A signed recovery names a proper successor and people, and a base and projection a command can carry.
  predicate RecoveryIsSpellable(s: Status, r: Request) {
    r.selector.Some? && s.authority.Some? &&
    var sel := r.selector.value;
    && ValidLineage(r.successor) && r.successor != s.authority.value.lineage
    && !BlankText(r.reason) && !BlankText(r.actor)
    && (sel.kind != CurrentChanges ==> ValidSelectorText(BaseOf(sel)))
    && (sel.kind == WorkspaceOverlay && sel.projection == Staged ==> sel.recoveryProjection == Some(Staged))
  }

  // The review goes on: nothing has to be reconciled, retried or stopped first.
  predicate GoesOn(s: Status) {
    s.applicability == CurrentTarget && s.authority.Some? &&
    s.action != ReconcileAction && s.action != RetryVerificationAction && s.action != StopAction
  }

  // Not all results were captured, and one of the missing ones can be asked for.
  predicate ResultsAreMissing(lenses: seq<string>, artifacts: Artifacts) {
    artifacts.Orders? && |artifacts.orders| != |lenses| && exists o :: 0 <= o < |lenses| && o !in artifacts.orders
  }

  // The target changed, a command can name it, and the text for exactly this recovery was given.
  predicate RecoveryIsSigned(s: Status, a: Authority, r: Request) {
    && r.selector.Some? && s.targetIdentity != AuthorityTargetIdentity(s) && RecoverySelectors(r.selector.value).Some?
    && RecoveryIsAuthorized(BindingOf(a, s.targetIdentity, r.repositoryContext), r)
  }

  predicate GateIsRepresentable(r: Request) {
    r.selector.Some? && GateOf(r) == PrePR ==> r.selector.value.prePRRepresentable
  }

  // Decisions that depend on more than the assessment, by what is known before the call.
  predicate AsksForResults(s: Status, lenses: seq<string>, artifacts: Artifacts) {
    GoesOn(s) && s.authority.value.state == Reviewing && ResultsAreMissing(lenses, artifacts)
  }

  predicate SignsRecovery(s: Status, r: Request) {
    GoesOn(s) &&
    var a := s.authority.value;
    (a.state == Invalidated || ((a.state == CorrectionRequired || a.state == Approved) && s.action == RecoverAction)) &&
    RecoveryIsSigned(s, a, r)
  }

  predicate ShowsReceipt(s: Status, r: Request) {
    GoesOn(s) && s.authority.value.state == Approved && s.action != RecoverAction && s.receipt == Present &&
    GateIsRepresentable(r)
  }

  // What the caller's text and the frozen target have to satisfy.
  predicate Acceptable(s: Status, lenses: seq<string>, artifacts: Artifacts, r: Request) {
    && (AsksForResults(s, lenses, artifacts) ==> FrozenTargetIsLive(s, r.capture))
    && (SignsRecovery(s, r) ==> RecoveryIsSpellable(s, r))
  }

  // ----- argument lists -----

  lemma GivenLookups(args: seq<Argument>)
    requires Distinct(args)
    ensures forall i :: 0 <= i < |args| ==> Lookup(args, args[i].name) == Some(args[i].value)
  {
    forall i | 0 <= i < |args| ensures Lookup(args, args[i].name) == Some(args[i].value) {
      LookupGiven(args, args[i]);
    }
  }

  lemma Lookups(args: seq<Argument>)
    requires Distinct(args)
    ensures forall i :: 0 <= i < |args| ==> Lookup(args, args[i].name) == Some(args[i].value)
    ensures forall n :: (forall i :: 0 <= i < |args| ==> args[i].name != n) ==> Lookup(args, n) == None
  {
    GivenLookups(args);
    forall n | forall i :: 0 <= i < |args| ==> args[i].name != n ensures Lookup(args, n) == None {
      LookupAbsent(args, n);
    }
  }

  lemma BindingLookups(b: Binding)
    ensures var args := BindingArguments(b);
            && Distinct(args) && Lookup(args, Lineage) == Some(Text(b.lineage))
            && Lookup(args, ExpectedRevision) == Some(Text(b.revision)) && Lookup(args, Target) == Some(Text(b.target))
  {
    var args := BindingArguments(b);
    GivenLookups(args);
    assert args[0].name == Lineage && args[1].name == ExpectedRevision && args[2].name == Target;
  }

  lemma IdentitiesAreNotBlank(s: string)
    requires ValidDigest(s) || ValidLineage(s) || ValidGitTree(s) || ValidHandle(s) || SupportedLens(s)
    ensures !BlankText(s) && s != ""
  {
    if ValidDigest(s) { assert s[..7][0] == 's'; }
    if ValidLineage(s) || ValidGitTree(s) { assert !Space(s[0]); }
    if ValidHandle(s) { assert s[..6][0] == 'r'; }
    assert !Space(s[0]);
  }

  // A collection of one plain input over a binding.
  lemma BindingNames(b: Binding, extra: seq<Argument>)
    requires extra == [] || (|extra| == 1 && extra[0].name == Disposition)
    ensures var args := BindingArguments(b) + extra;
            && |args| == 3 + |extra| && Distinct(args) && args[2] == Argument(Target, Text(b.target))
  {
  }

  lemma {:induction false} BindingInputIsValid(b: Binding, extra: seq<Argument>, name: InputName, capture: Capture)
    requires ValidLineage(b.lineage) && ValidDigest(b.revision) && ValidDigest(b.target)
    requires extra == [] || (|extra| == 1 && extra[0].name == Disposition && !Blank(extra[0].value))
    requires capture != CaptureResult && capture != RunTargetedValidation
    ensures ValidInput(Input(name, Fixed(name), capture, BindingArguments(b) + extra, None, None))
    ensures TextOf(BindingArguments(b) + extra, Target) == b.target && Distinct(BindingArguments(b) + extra)
  {
    hide ValidLineage, ValidDigest, BlankText, Lookup, Distinct;
    IdentitiesAreNotBlank(b.lineage);
    IdentitiesAreNotBlank(b.revision);
    IdentitiesAreNotBlank(b.target);
    BindingNames(b, extra);
    GivenLookups(BindingArguments(b) + extra);
  }

  // An execution of FINALIZE.
  lemma {:induction false} FinalizeIsValid(reason: ReasonCode, b: Binding, extra: seq<Argument>,
                                           preconditions: seq<Argument>,
                        artifacts: seq<nat>)
    requires ValidLineage(b.lineage) && ValidDigest(b.revision) && ValidDigest(b.target)
    requires b.context == "" || ValidHandle(b.context)
    requires extra == [] || (|extra| == 1 && extra[0].name != Lineage && !Blank(extra[0].value))
    requires preconditions != [] && Nonblank(preconditions)
    ensures Valid(Finalize(reason, b, extra, preconditions, artifacts))
  {
    IdentitiesAreNotBlank(b.lineage);
  }

  // ----- outside the current target -----

  lemma {:induction false} StartAgrees(s: Status, r: Request)
    requires Assessed(s) && s.applicability == Unrelated && s.action == StartAction
    requires r.startLineage == "" || ValidLineage(r.startLineage)
    ensures var t := Execute(FreshTargetReady,
                             Execution(ReviewStart, StartArguments(s, r.startLineage), None,
                                       [Argument(TargetIdentity, Text(s.targetIdentity))],
                                       Binding(r.startLineage, "", s.targetIdentity, ""), []));
            Valid(t) && Fits(s, t)
  {
    hide ValidLineage, ValidDigest, ValidGitTree, Lookup, StartArguments, BlankText;
    IdentitiesAreNotBlank(s.targetIdentity);
    StartArgumentsAre(s, r.startLineage);
  }

  lemma StartNames(s: Status, lineage: string)
    requires lineage == "" || !BlankText(lineage)
    ensures var args := StartArguments(s, lineage);
            && Distinct(args)
            && if lineage == "" then forall i :: 0 <= i < |args| ==> args[i].name != Lineage
               else args != [] && args[|args| - 1] == Argument(Lineage, Text(lineage))
  {
    assert BlankText("");
  }

  lemma StartArgumentsAre(s: Status, lineage: string)
    requires Assessed(s) && (lineage == "" || ValidLineage(lineage))
    ensures var args := StartArguments(s, lineage);
            Distinct(args) && Nonblank(args) && TextOf(args, Lineage) == lineage
  {
    hide ValidLineage, ValidDigest, ValidGitTree, Lookup, Distinct;
    var args := StartArguments(s, lineage);
    IdentitiesAreNotBlank(s.targetIdentity);
    IdentitiesAreNotBlank(s.projection.baseTree);
    if lineage != "" { IdentitiesAreNotBlank(lineage); }
    StartNames(s, lineage);
    Lookups(args);
    if lineage == "" { assert Lookup(args, Lineage) == None; }
  }

  lemma {:induction false} AmbiguousAgrees(s: Status)
    requires Assessed(s) && s.applicability == Ambiguous
    ensures Valid(AmbiguousTransition(s)) && Fits(s, AmbiguousTransition(s))
  {
    hide ValidLineage, ValidDigest, ValidGitTree, BlankText, Lookup;
    IdentitiesAreNotBlank(s.targetIdentity);
    IdentitiesAreNotBlank(s.projection.baseTree);
    IdentitiesAreNotBlank(s.projection.candidateTree);
  }

  // What the program puts into the arguments of a repair, and into its preconditions.
  lemma RepairArgumentsAre(s: Status)
    requires Assessed(s) && s.repair.candidate.Some?
    ensures var args := RepairArguments(s.repair, s.repair.candidate.value);
            |args| == 6 && Nonblank(args)
  {
    hide ValidLineage, ValidDigest, ValidGitTree, BlankText;
    IdentitiesAreNotBlank(s.repair.candidate.value.lineage);
    IdentitiesAreNotBlank(s.repair.candidate.value.revision);
    IdentitiesAreNotBlank(s.repair.binding);
  }

  predicate Signature(rest: seq<Argument>) {
    rest == [] || (|rest| == 3 && rest[0].name == Actor && rest[1].name == Reason && rest[2].name == MaintainerAuthorization)
  }

  lemma RepairNames(p: Repair, c: Candidate, rest: seq<Argument>)
    requires Signature(rest)
    ensures var args := RepairArguments(p, c) + rest;
            && |args| == 6 + |rest| && Distinct(args)
            && args[0] == Argument(Class, Text(p.repairClass)) && args[1] == Argument(Lineage, Text(c.lineage))
            && args[2] == Argument(ExpectedRevision, Text(c.revision)) && args[3] == Argument(Cause, Text(p.cause))
            && args[4] == Argument(Disposition, Text(p.disposition)) && args[5] == Argument(RepositoryBinding, Text(p.binding))
  {
  }

  lemma {:induction false} RepairLookups(p: Repair, c: Candidate, rest: seq<Argument>)
    requires Signature(rest)
    ensures var args := RepairArguments(p, c) + rest;
            && Distinct(args) && AnswersProvider(args, p, c)
            && (forall i :: 0 <= i < |rest| ==> Lookup(args, rest[i].name) == Some(rest[i].value))
  {
    hide Lookup, RepairArguments, Distinct, Signature;
    var args := RepairArguments(p, c) + rest;
    RepairNames(p, c, rest);
    GivenLookups(args);
    assert forall i :: 0 <= i < |rest| ==> args[6 + i] == rest[i];
  }

  lemma RepairPreconditionsAre(c: Candidate)
    ensures var pre := [Argument(RepairStatus, Eligible), Argument(UniqueCandidate, Yes),
                        Argument(CurrentHead, Text(c.revision)), Argument(RepairAuthorization, Provided)];
            Distinct(pre) && RepairMayProceed(pre, c)
  {
    hide Lookup;
    var pre := [Argument(RepairStatus, Eligible), Argument(UniqueCandidate, Yes),
                Argument(CurrentHead, Text(c.revision)), Argument(RepairAuthorization, Provided)];
    GivenLookups(pre);
    assert pre[0].name == RepairStatus && pre[1].name == UniqueCandidate && pre[2].name == CurrentHead;
    assert pre[3].name == RepairAuthorization;
  }

  lemma {:induction false} RepairAgrees(s: Status, r: Request)
    requires Assessed(s) && s.repair.candidate.Some?
    ensures Valid(RepairTransition(s, r)) && Fits(s, RepairTransition(s, r))
  {
    hide ValidLineage, ValidDigest, ValidGitTree, RepairIsAuthorized, Lookup, BlankText, RepairArguments, AnswersProvider;
    var p, c := s.repair, s.repair.candidate.value;
    if RepairIsAuthorized(p, c, r) {
      RepairExecutionAgrees(s, r, [Argument(Actor, Text(r.repairActor)), Argument(Reason, Text(r.repairReason)),
                                   Argument(MaintainerAuthorization, Provided)]);
    } else {
      RepairArgumentsAre(s);
      RepairLookups(p, c, []);
      assert RepairArguments(p, c) + [] == RepairArguments(p, c);
    }
  }

  lemma {:induction false} RepairExecutionAgrees(s: Status, r: Request, rest: seq<Argument>)
    requires Assessed(s) && s.repair.candidate.Some?
    requires RepairIsAuthorized(s.repair, s.repair.candidate.value, r)
    requires rest == [Argument(Actor, Text(r.repairActor)), Argument(Reason, Text(r.repairReason)),
                      Argument(MaintainerAuthorization, Provided)]
    ensures Valid(RepairTransition(s, r)) && Fits(s, RepairTransition(s, r))
  {
    hide ValidLineage, ValidDigest, ValidGitTree, RepairAuthorizationText, BlankText, Trimmed, Lookup, RepairArguments,
         RepairFits, AnswersProvider;
    var p, c := s.repair, s.repair.candidate.value;
    TrimmedIsNotBlank(r.repairActor);
    TrimmedIsNotBlank(r.repairReason);
    RepairArgumentsAre(s);
    IdentitiesAreNotBlank(c.lineage);
    IdentitiesAreNotBlank(c.revision);
    RepairLookups(p, c, rest);
    RepairExecutionFits(s, r, rest);
  }

  lemma {:induction false} RepairExecutionFits(s: Status, r: Request, rest: seq<Argument>)
    requires Assessed(s) && s.repair.candidate.Some?
    requires RepairIsAuthorized(s.repair, s.repair.candidate.value, r)
    requires rest == [Argument(Actor, Text(r.repairActor)), Argument(Reason, Text(r.repairReason)),
                      Argument(MaintainerAuthorization, Provided)]
    ensures RepairFits(s, RepairTransition(s, r))
  {
    hide ValidLineage, ValidDigest, ValidGitTree, RepairAuthorizationText, BlankText, Trimmed, Lookup, RepairArguments,
         Distinct, Assessed, AnswersProvider, RepairMayProceed;
    var p, c := s.repair, s.repair.candidate.value;
    TrimmedIsNotBlank(r.repairActor);
    TrimmedIsNotBlank(r.repairReason);
    RepairArgumentsAre(s);
    RepairLookups(p, c, rest);
    assert rest[0].name == Actor && rest[1].name == Reason && rest[2].name == MaintainerAuthorization;
    RepairPreconditionsAre(c);
  }

  lemma TrimmedIsNotBlank(t: string)
    requires Trimmed(t)
    ensures !BlankText(t)
  {
    assert !Space(t[0]);
  }

  lemma RetryArgumentsAre(s: Status, a: Authority, b: Binding)
    requires Assessed(s) && s.authority == Some(a) && s.retry.Some? && b.lineage == a.lineage && b.revision == a.revision
    ensures RetryArguments(b, s.retry.value) != [] && Nonblank(RetryArguments(b, s.retry.value))
  {
    hide ValidLineage, ValidDigest, ValidGitTree, BlankText;
    var p := s.retry.value;
    IdentitiesAreNotBlank(a.lineage);
    IdentitiesAreNotBlank(a.revision);
    IdentitiesAreNotBlank(p.validatingRevision);
    IdentitiesAreNotBlank(p.target);
    IdentitiesAreNotBlank(p.failedEvidence);
    IdentitiesAreNotBlank(p.finalizeRequest);
  }

  lemma RetryNames(b: Binding, p: VerificationRetryProof)
    ensures var args := RetryArguments(b, p);
            && |args| == 8 && Distinct(args)
            && args[0].name == PredecessorLineage && args[1].name == ExpectedPredecessorRevision
            && args[2].name == ValidatingRevision && args[3].name == Target && args[4].name == FailedEvidenceHash
            && args[5].name == FinalizeRequestDigest && args[6].name == IncidentSchema && args[7].name == IncidentClass
  {
  }

  lemma RetryLookups(a: Authority, b: Binding, p: VerificationRetryProof)
    requires b.lineage == a.lineage && b.revision == a.revision
    ensures Distinct(RetryArguments(b, p)) && |RetryArguments(b, p)| == 8 && AnswersRetry(RetryArguments(b, p), a, p)
  {
    hide Lookup, Distinct;
    RetryNames(b, p);
    GivenLookups(RetryArguments(b, p));
  }

  lemma RetryAgrees(s: Status, a: Authority, b: Binding)
    requires Assessed(s) && s.authority == Some(a) && s.action == RetryVerificationAction
    requires b.lineage == a.lineage && b.revision == a.revision
    ensures Valid(RetryTransition(s, b)) && Fits(s, RetryTransition(s, b))
  {
    hide ValidLineage, ValidDigest, ValidGitTree, BlankText, Lookup, RetryArguments, AnswersRetry;
    RetryArgumentsAre(s, a, b);
    RetryLookups(a, b, s.retry.value);
  }

  // ----- reviewing -----

  // The lens an input asked for is of.
  lemma {:induction false} LensOfInput(b: Binding, lenses: seq<string>, from: nat, orders: seq<nat>,
                                       c: Option<CaptureContext>, i: nat) returns (o: nat)
    requires from <= |lenses| && i < |MissingInputs(b, lenses, from, orders, c)|
    ensures from <= o < |lenses| && o !in orders && MissingInputs(b, lenses, from, orders, c)[i] == CaptureInput(b, lenses[o], o, c)
    decreases |lenses| - from
  {
    hide CaptureInput;
    if from in orders {
      o := LensOfInput(b, lenses, from + 1, orders, c, i);
    } else if i == 0 {
      o := from;
    } else {
      o := LensOfInput(b, lenses, from + 1, orders, c, i - 1);
    }
  }

  lemma {:induction false} InputOfLens(b: Binding, lenses: seq<string>, from: nat, orders: seq<nat>,
                                       c: Option<CaptureContext>, o: nat) returns (i: nat)
    requires from <= o < |lenses| && o !in orders
    ensures i < |MissingInputs(b, lenses, from, orders, c)|
    ensures MissingInputs(b, lenses, from, orders, c)[i] == CaptureInput(b, lenses[o], o, c)
    decreases |lenses| - from
  {
    hide CaptureInput;
    if o == from {
      i := 0;
    } else {
      i := InputOfLens(b, lenses, from + 1, orders, c, o);
      if from !in orders { i := i + 1; }
    }
  }

  // The inputs asked for are those of exactly the lenses without a captured result.
  lemma {:induction false} MissingInputsAre(b: Binding, lenses: seq<string>, from: nat, orders: seq<nat>,
                                            c: Option<CaptureContext>)
    requires from <= |lenses|
    ensures var inputs := MissingInputs(b, lenses, from, orders, c);
            && (forall i :: 0 <= i < |inputs| ==>
                  exists o :: from <= o < |lenses| && o !in orders && inputs[i] == CaptureInput(b, lenses[o], o, c))
            && (forall o :: from <= o < |lenses| && o !in orders ==> CaptureInput(b, lenses[o], o, c) in inputs)
  {
    hide CaptureInput;
    var inputs := MissingInputs(b, lenses, from, orders, c);
    forall i | 0 <= i < |inputs|
      ensures exists o :: from <= o < |lenses| && o !in orders && inputs[i] == CaptureInput(b, lenses[o], o, c)
    {
      var o := LensOfInput(b, lenses, from, orders, c, i);
    }
    forall o | from <= o < |lenses| && o !in orders ensures CaptureInput(b, lenses[o], o, c) in inputs {
      var i := InputOfLens(b, lenses, from, orders, c, o);
      assert inputs[i] in inputs;
    }
  }

  // They are asked for in selected order: one asked for later is of a later lens.
  lemma {:induction false} MissingInputsAscend(b: Binding, lenses: seq<string>, from: nat, orders: seq<nat>,
                                               c: Option<CaptureContext>, i: nat, j: nat) returns (o: nat, p: nat)
    requires from <= |lenses| && i < j < |MissingInputs(b, lenses, from, orders, c)|
    ensures from <= o < p < |lenses|
    ensures MissingInputs(b, lenses, from, orders, c)[i] == CaptureInput(b, lenses[o], o, c)
    ensures MissingInputs(b, lenses, from, orders, c)[j] == CaptureInput(b, lenses[p], p, c)
    decreases |lenses| - from
  {
    hide CaptureInput;
    if from in orders {
      o, p := MissingInputsAscend(b, lenses, from + 1, orders, c, i, j);
    } else if i > 0 {
      o, p := MissingInputsAscend(b, lenses, from + 1, orders, c, i - 1, j - 1);
    } else {
      o := from;
      p := LensOfInput(b, lenses, from + 1, orders, c, j - 1);
    }
  }

  lemma CaptureLookups(b: Binding, lens: string, o: nat)
    requires b.context != ""
    ensures var args := BindingArguments(b) + [Argument(RepositoryContext, Text(b.context))]
                        + [Argument(Lens, Text(lens)), Argument(Order, Position(o))];
            && |args| == 6 && Distinct(args)
            && Lookup(args, Lineage) == Some(Text(b.lineage)) && Lookup(args, ExpectedRevision) == Some(Text(b.revision))
            && Lookup(args, Target) == Some(Text(b.target)) && Lookup(args, RepositoryContext) == Some(Text(b.context))
            && Lookup(args, Lens) == Some(Text(lens)) && Lookup(args, Order) == Some(Position(o))
  {
    hide Lookup;
    var args := BindingArguments(b) + [Argument(RepositoryContext, Text(b.context))]
                + [Argument(Lens, Text(lens)), Argument(Order, Position(o))];
    GivenLookups(args);
    assert args[0].name == Lineage && args[1].name == ExpectedRevision && args[2].name == Target;
    assert args[3].name == RepositoryContext && args[4].name == Lens && args[5].name == Order;
  }

  lemma {:induction false} CaptureInputAgreesIff(s: Status, a: Authority, b: Binding, lenses: seq<string>, o: nat,
                                                 c: CaptureContext)
    requires Assessed(s) && s.authority == Some(a) && CaptureOf(s, a, lenses, c) && o < |lenses|
    requires b == BindingOf(a, s.targetIdentity, b.context) && ValidHandle(b.context)
    ensures var i := CaptureInput(b, lenses[o], o, Some(c));
            ValidInput(i) && InputFits(s, i) <==> FrozenTargetIsLive(s, Some(c))
  {
    hide ValidLineage, ValidDigest, ValidGitTree, BlankText, ValidHandle, SupportedLens, Lookup;
    var i := CaptureInput(b, lenses[o], o, Some(c));
    IdentitiesAreNotBlank(a.lineage);
    IdentitiesAreNotBlank(a.revision);
    IdentitiesAreNotBlank(s.targetIdentity);
    IdentitiesAreNotBlank(b.context);
    IdentitiesAreNotBlank(lenses[o]);
    CaptureLookups(b, lenses[o], o);
    assert c.subjects[o] == Subject(a.lineage, a.revision, s.projection.initialIdentity, lenses[o], o, c.diff, c.manifest);
  }

  lemma {:induction false} CapturesAgreeIff(s: Status, a: Authority, b: Binding, lenses: seq<string>, orders: seq<nat>,
                                            c: CaptureContext)
    requires Assessed(s) && s.authority == Some(a) && CaptureOf(s, a, lenses, c) && a.state == Reviewing && s.retry.None?
    requires b == BindingOf(a, s.targetIdentity, b.context) && ValidHandle(b.context)
    ensures var t := MissingCapture(b, lenses, orders, Some(c));
            Valid(t) && Fits(s, t) <==>
              ((exists o :: 0 <= o < |lenses| && o !in orders) ==> FrozenTargetIsLive(s, Some(c)))
  {
    hide ValidInput, InputFits, FrozenTargetIsLive, CaptureOf, ValidDigest, ValidLineage, ValidGitTree, ValidHandle, MissingInputs;
    var inputs := MissingInputs(b, lenses, 0, orders, Some(c));
    MissingInputsAre(b, lenses, 0, orders, Some(c));
    InputsAreMissingIff(b, lenses, orders, Some(c));
    forall i | 0 <= i < |inputs|
      ensures ValidInput(inputs[i]) && InputFits(s, inputs[i]) <==> FrozenTargetIsLive(s, Some(c))
    {
      var o :| 0 <= o < |lenses| && o !in orders && inputs[i] == CaptureInput(b, lenses[o], o, Some(c));
      CaptureInputAgreesIff(s, a, b, lenses, o, c);
    }
    if inputs != [] {
      var t := MissingCapture(b, lenses, orders, Some(c));
      assert t.inputs[0] == inputs[0];
      if Valid(t) && Fits(s, t) { assert ValidInput(t.inputs[0]) && InputFits(s, t.inputs[0]); }
    }
  }

  // FINALIZE executions fit wherever their binding is the expected one.
  lemma FinalizeFits(s: Status, a: Authority, reason: ReasonCode, b: Binding, extra: seq<Argument>, pre: seq<Argument>,
                     artifacts: seq<nat>)
    requires Assessed(s) && s.authority == Some(a) && s.retry.None? && b.target == BindingTarget(s, a)
    ensures Fits(s, Finalize(reason, b, extra, pre, artifacts))
  {
  }

  lemma {:induction false} ReviewingAgreesIff(s: Status, a: Authority, lenses: seq<string>, artifacts: Artifacts,
                                              r: Request)
    requires Assessed(s) && s.authority == Some(a) && Prepared(s, lenses, artifacts, r) && a.state == Reviewing && s.retry.None?
    ensures var t := ReviewingTransition(BindingOf(a, s.targetIdentity, r.repositoryContext), lenses, artifacts, r);
            Valid(t) && Fits(s, t) <==> (ResultsAreMissing(lenses, artifacts) ==> FrozenTargetIsLive(s, r.capture))
  {
    var b := BindingOf(a, s.targetIdentity, r.repositoryContext);
    hide ValidInput, InputFits, FrozenTargetIsLive, CaptureOf, MissingInputs, ValidDigest, ValidLineage, ValidGitTree, SelectorOf,
         RecoveryIsSpellable, ValidHandle;
    if artifacts.Orders? {
      if |artifacts.orders| != |lenses| {
        CapturesAgreeIff(s, a, b, lenses, artifacts.orders, r.capture.value);
      } else {
        var pre := [Argument(StateName, OfState(Reviewing)), Argument(CapturedArtifacts, Complete)];
        FinalizeIsValid(CapturedResultsReady, b, [Argument(CapturedResults, Yes)], pre, artifacts.orders);
        FinalizeFits(s, a, CapturedResultsReady, b, [Argument(CapturedResults, Yes)], pre, artifacts.orders);
      }
    }
  }

  // ----- correcting and validating -----

  lemma {:induction false} PlainAgrees(s: Status, a: Authority, b: Binding, extra: seq<Argument>, reason: ReasonCode,
                                       name: InputName,
                    capture: Capture)
    requires Assessed(s) && s.authority == Some(a) && s.retry.None?
    requires b.lineage == a.lineage && b.revision == a.revision && ValidDigest(b.target)
    requires extra == [] || (|extra| == 1 && extra[0].name == Disposition && !Blank(extra[0].value))
    requires capture != CaptureResult && capture != RunTargetedValidation
    requires capture == CaptureEvidence ==> b.target == AuthorityTargetIdentity(s)
    ensures var t := Plain(reason, name, capture, BindingArguments(b) + extra);
            Valid(t) && Fits(s, t)
  {
    BindingInputIsValid(b, extra, name, capture);
    hide ValidInput, ValidDigest, ValidLineage, ValidGitTree, BindingArguments, Distinct, TextOf, Lookup;
  }

  lemma ValidationAgrees(s: Status, a: Authority, b: Binding, v: ValidationRequest)
    requires Assessed(s) && s.authority == Some(a) && s.retry.None?
    requires b.lineage == a.lineage && b.revision == a.revision
    requires v.lineage == a.lineage && v.revision == a.revision && ValidDigest(v.correctionTarget) && v.wellFormed
    ensures var t := Collect(TargetedValidationRequired,
                             [Input(TargetedValidation, Fixed(TargetedValidation), RunTargetedValidation,
                                    BindingArguments(b.(target := v.correctionTarget)), None, Some(v))]);
            Valid(t) && Fits(s, t)
  {
    hide ValidLineage, ValidDigest, ValidGitTree, BlankText, Lookup;
    var b' := b.(target := v.correctionTarget);
    IdentitiesAreNotBlank(a.lineage);
    IdentitiesAreNotBlank(a.revision);
    IdentitiesAreNotBlank(v.correctionTarget);
    BindingLookups(b');
  }

  lemma {:induction false} ValidatingAgrees(s: Status, a: Authority, evidence: bool, context: string)
    requires Assessed(s) && s.authority == Some(a) && a.state == Validating && s.retry.None?
    requires context == "" || ValidHandle(context)
    ensures var t := ValidatingTransition(s, BindingOf(a, AuthorityTargetIdentity(s), context), evidence);
            Valid(t) && Fits(s, t)
  {
    hide ValidDigest, ValidLineage, ValidGitTree, ValidHandle, Valid;
    var b := BindingOf(a, AuthorityTargetIdentity(s), context);
    assert ValidDigest(b.target);
    var validating := Argument(StateName, OfState(Validating));
    var pre1, pre2 := [validating, Argument(VerificationEvidence, Captured)], [validating, Argument(RiskLevel, Low)];
    if evidence {
      FinalizeIsValid(EvidenceReady, b, [Argument(CapturedEvidence, Yes)], pre1, []);
      FinalizeFits(s, a, EvidenceReady, b, [Argument(CapturedEvidence, Yes)], pre1, []);
    } else if s.lowRisk {
      FinalizeIsValid(NativeLowRisk, b, [], pre2, []);
      FinalizeFits(s, a, NativeLowRisk, b, [], pre2, []);
    } else {
      PlainAgrees(s, a, b, [], EvidenceRequired, Evidence, CaptureEvidence);
      assert BindingArguments(b) + [] == BindingArguments(b);
    }
  }

  // ----- approved -----

  lemma ReceiptLookups(b: Binding, gate: Gate, selectors: seq<Argument>)
    requires selectors == [] || (|selectors| == 1 && selectors[0].name == BaseRef)
    ensures var args := [Argument(Lineage, Text(b.lineage)), Argument(GateName, OfGate(gate))] + selectors;
            && Distinct(args) && Lookup(args, Lineage) == Some(Text(b.lineage)) && Lookup(args, GateName) == Some(OfGate(gate))
            && (if selectors == [] then Lookup(args, BaseRef) == None else Lookup(args, BaseRef) == Some(selectors[0].value))
            && Lookup(args, CommittedOnly) == None && Lookup(args, ProjectionName) == None && Lookup(args, Overlay) == None
            && SelectorsIn(args, [BaseRef]) == selectors
  {
    hide Lookup, SelectorsIn;
    var args := [Argument(Lineage, Text(b.lineage)), Argument(GateName, OfGate(gate))] + selectors;
    Lookups(args);
    assert args[0].name == Lineage && args[1].name == GateName;
    if selectors != [] { assert args[2] == selectors[0]; }
    OneSelectorIn(args, selectors);
  }

  lemma OneSelectorIn(args: seq<Argument>, selectors: seq<Argument>)
    requires selectors == [] || (|selectors| == 1 && selectors[0].name == BaseRef)
    requires Lookup(args, BaseRef) == if selectors == [] then None else Some(selectors[0].value)
    ensures SelectorsIn(args, [BaseRef]) == selectors
  {
    hide Lookup;
    assert [BaseRef][1..] == [];
  }

  lemma ReceiptAgrees(s: Status, a: Authority, lenses: seq<string>, artifacts: Artifacts, r: Request)
    requires Assessed(s) && s.authority == Some(a) && Prepared(s, lenses, artifacts, r) && a.state == Approved && s.retry.None?
    ensures var t := ReceiptTransition(BindingOf(a, s.targetIdentity, r.repositoryContext), r);
            Valid(t) && Fits(s, t)
  {
    hide ValidDigest, ValidLineage, ValidGitTree, ValidHandle, BlankText, ValidSelectorText, CaptureOf, RecoveryIsSpellable, Lookup,
         SelectorsIn, Distinct;
    var b, sel, gate := BindingOf(a, s.targetIdentity, r.repositoryContext), r.selector.value, GateOf(r);
    IdentitiesAreNotBlank(a.lineage);
    if sel.baseRef != "" { assert !BlankText(sel.baseRef); }
    var selectors := if gate == PrePR && sel.baseRef != "" then [Argument(BaseRef, Text(sel.baseRef))] else [];
    ReceiptLookups(b, gate, selectors);
  }

  // ----- recovery -----

  lemma {:induction false} LookupAppend(head: seq<Argument>, tail: seq<Argument>, n: Name)
    ensures Lookup(head + tail, n) == if Lookup(head, n).Some? then Lookup(head, n) else Lookup(tail, n)
  {
    if head == [] {
      assert head + tail == tail;
    } else {
      assert (head + tail)[1..] == head[1..] + tail;
      LookupAppend(head[1..], tail, n);
    }
  }

  function SelectorValue(sel: Selector, n: Name): Option<Value> {
    match n
    case BaseRef => if sel.kind == CurrentChanges then None else Some(Text(BaseOf(sel)))
    case CommittedOnly => if sel.kind == BaseDiff then Some(Yes) else None
    case ProjectionName => if sel.recoveryProjection.Some? then Some(OfProjection(sel.recoveryProjection.value)) else None
    case Overlay => if sel.kind == WorkspaceOverlay && sel.recoveryProjection == Some(Staged) then Some(Yes) else None
    case _ => None
  }

  // The selectors of a recovery, looked up.
  lemma SelectorLookups(s: Status, sel: Selector)
    requires SelectorOf(s, sel) && RecoverySelectors(sel).Some?
    ensures var args := RecoverySelectors(sel).value;
            && Distinct(args) && (forall i :: 0 <= i < |args| ==> SelectorName(args[i].name))
            && forall n :: Lookup(args, n) == SelectorValue(sel, n)
  {
    hide Lookup, RecoverySelectors, SelectorOf;
    SelectorsAre(s, sel);
    var args := RecoverySelectors(sel).value;
    Lookups(args);
    forall n ensures Lookup(args, n) == SelectorValue(sel, n) {
      if SelectorValue(sel, n).None? { assert forall i :: 0 <= i < |args| ==> args[i].name != n; }
    }
  }

  lemma {:induction false} SelectorsAre(s: Status, sel: Selector)
    requires SelectorOf(s, sel) && RecoverySelectors(sel).Some?
    ensures var args := RecoverySelectors(sel).value;
            && Distinct(args)
            && (forall i :: 0 <= i < |args| ==>
                  SelectorName(args[i].name) && SelectorValue(sel, args[i].name) == Some(args[i].value))
            && (forall n :: SelectorValue(sel, n).Some? ==> exists i :: 0 <= i < |args| && args[i].name == n)
  {
    hide ValidGitTree, BlankText;
    var args := RecoverySelectors(sel).value;
    if sel.kind != CurrentChanges { assert args[0] == Argument(BaseRef, Text(BaseOf(sel))); }
    if sel.kind == CurrentChanges && sel.recoveryProjection.Some? { assert args[0].name == ProjectionName; }
    if sel.kind == BaseDiff { assert args[1].name == CommittedOnly; }
    if sel.kind == BaseDiff && sel.recoveryProjection.Some? { assert args[2].name == ProjectionName; }
    if sel.kind == WorkspaceOverlay && sel.recoveryProjection.Some? { assert args[1].name == ProjectionName; }
    if sel.kind == WorkspaceOverlay && sel.recoveryProjection == Some(Staged) { assert args[2].name == Overlay; }
  }

  function RequiredArguments(b: Binding, recovery: Recovery, r: Request): seq<Argument> {
    [Argument(PredecessorLineage, Text(b.lineage)), Argument(ExpectedPredecessorRevision, Text(b.revision)),
     Argument(SuccessorLineage, Text(r.successor)), Argument(Disposition, OfRecovery(recovery)),
     Argument(Reason, Text(r.reason)), Argument(Actor, Text(r.actor)),
     Argument(MaintainerAuthorization, Text(r.authorization))]
  }

  lemma RequiredAre(b: Binding, recovery: Recovery, r: Request)
    ensures var args := RequiredArguments(b, recovery, r);
            && |args| == 7 && Distinct(args) && (forall i :: 0 <= i < 7 ==> !SelectorName(args[i].name))
            && args[0] == Argument(PredecessorLineage, Text(b.lineage))
            && args[1] == Argument(ExpectedPredecessorRevision, Text(b.revision))
            && args[2] == Argument(SuccessorLineage, Text(r.successor)) && args[3] == Argument(Disposition, OfRecovery(recovery))
            && args[4] == Argument(Reason, Text(r.reason)) && args[5] == Argument(Actor, Text(r.actor))
            && args[6] == Argument(MaintainerAuthorization, Text(r.authorization))
  {
  }

  lemma {:induction false} RequiredLookups(b: Binding, recovery: Recovery, r: Request)
    ensures var args := RequiredArguments(b, recovery, r);
            && Distinct(args)
            && Lookup(args, PredecessorLineage) == Some(Text(b.lineage))
            && Lookup(args, ExpectedPredecessorRevision) == Some(Text(b.revision))
            && Lookup(args, SuccessorLineage) == Some(Text(r.successor))
            && Lookup(args, Disposition) == Some(OfRecovery(recovery))
            && Lookup(args, Reason) == Some(Text(r.reason)) && Lookup(args, Actor) == Some(Text(r.actor))
            && Lookup(args, MaintainerAuthorization) == Some(Text(r.authorization))
            && forall n :: SelectorName(n) ==> Lookup(args, n) == None
  {
    hide Lookup, RequiredArguments, Distinct, SelectorName;
    RequiredAre(b, recovery, r);
    Lookups(RequiredArguments(b, recovery, r));
  }

  // All arguments of a recovery, looked up.
  ghost predicate Answers(args: seq<Argument>, b: Binding, recovery: Recovery, r: Request, sel: Selector) {
    && Distinct(args)
    && Lookup(args, PredecessorLineage) == Some(Text(b.lineage))
    && Lookup(args, ExpectedPredecessorRevision) == Some(Text(b.revision))
    && Lookup(args, SuccessorLineage) == Some(Text(r.successor))
    && Lookup(args, Disposition) == Some(OfRecovery(recovery))
    && Lookup(args, Reason) == Some(Text(r.reason)) && Lookup(args, Actor) == Some(Text(r.actor))
    && Lookup(args, MaintainerAuthorization) == Some(Text(r.authorization))
    && forall n :: SelectorName(n) ==> Lookup(args, n) == SelectorValue(sel, n)
  }

  lemma {:induction false} RecoverLookups(s: Status, b: Binding, recovery: Recovery, r: Request)
    requires r.selector.Some? && SelectorOf(s, r.selector.value) && RecoverySelectors(r.selector.value).Some?
    ensures var args := RequiredArguments(b, recovery, r) + RecoverySelectors(r.selector.value).value;
            && Answers(args, b, recovery, r, r.selector.value)
            && SelectorsIn(args, RECOVER_SELECTORS) == RecoverySelectors(r.selector.value).value
  {
    hide Lookup, RequiredArguments, RecoverySelectors, SelectorOf, SelectorsIn, Distinct;
    var sel := r.selector.value;
    var selectors := RecoverySelectors(sel).value;
    var head := RequiredArguments(b, recovery, r);
    var args := head + selectors;
    SelectorLookups(s, sel);
    RequiredLookups(b, recovery, r);
    forall n ensures Lookup(args, n) == if Lookup(head, n).Some? then Lookup(head, n) else Lookup(selectors, n) {
      LookupAppend(head, selectors, n);
    }
    NamesApart(b, recovery, r, selectors);
    SelectorsInOrder(args, sel);
  }

  lemma NamesApart(b: Binding, recovery: Recovery, r: Request, selectors: seq<Argument>)
    requires Distinct(selectors) && forall i :: 0 <= i < |selectors| ==> SelectorName(selectors[i].name)
    ensures Distinct(RequiredArguments(b, recovery, r) + selectors)
  {
    var head := RequiredArguments(b, recovery, r);
    assert forall i :: 0 <= i < |head| ==> !SelectorName(head[i].name);
    assert Distinct(head);
    var args := head + selectors;
    hide RequiredArguments, SelectorName;
    forall i, j | 0 <= i < j < |args| ensures args[i].name != args[j].name {
    }
  }

  lemma SelectorsInOrder(args: seq<Argument>, sel: Selector)
    requires forall n :: SelectorName(n) ==> Lookup(args, n) == SelectorValue(sel, n)
    requires RecoverySelectors(sel).Some?
    ensures SelectorsIn(args, RECOVER_SELECTORS) == RecoverySelectors(sel).value
  {
    hide Lookup, SelectorsIn, SelectorName;
    ChosenInOrder(args, sel);
  }

  lemma ChosenInOrder(args: seq<Argument>, sel: Selector)
    requires forall n :: SelectorName(n) ==> Lookup(args, n) == SelectorValue(sel, n)
    ensures SelectorsIn(args, RECOVER_SELECTORS) ==
              Chosen(sel, BaseRef) + Chosen(sel, CommittedOnly) + Chosen(sel, ProjectionName) + Chosen(sel, Overlay)
  {
    hide Lookup, SelectorValue;
    assert RECOVER_SELECTORS[1..] == [CommittedOnly, ProjectionName, Overlay];
    assert [CommittedOnly, ProjectionName, Overlay][1..] == [ProjectionName, Overlay];
    assert [ProjectionName, Overlay][1..] == [Overlay];
    assert [Overlay][1..] == [];
    assert SelectorsIn(args, []) == [];
    assert SelectorName(BaseRef) && SelectorName(CommittedOnly) && SelectorName(ProjectionName) && SelectorName(Overlay);
    var four := SelectorsIn(args, [Overlay]);
    var three := SelectorsIn(args, [ProjectionName, Overlay]);
    var two := SelectorsIn(args, [CommittedOnly, ProjectionName, Overlay]);
    assert four == Chosen(sel, Overlay) + [];
    assert three == Chosen(sel, ProjectionName) + four;
    assert two == Chosen(sel, CommittedOnly) + three;
    assert SelectorsIn(args, RECOVER_SELECTORS) == Chosen(sel, BaseRef) + two;
  }

  function Chosen(sel: Selector, n: Name): seq<Argument> {
    if SelectorValue(sel, n).Some? then [Argument(n, SelectorValue(sel, n).value)] else []
  }

  // The selectors a command cannot do without.
  predicate StagedOverlayIsSaid(sel: Selector) {
    sel.kind == WorkspaceOverlay && sel.projection == Staged ==> sel.recoveryProjection == Some(Staged)
  }

  // The selector arguments among all of them.
  ghost predicate Selects(args: seq<Argument>, sel: Selector) {
    && Lookup(args, BaseRef) == SelectorValue(sel, BaseRef)
    && Lookup(args, CommittedOnly) == SelectorValue(sel, CommittedOnly)
    && Lookup(args, ProjectionName) == SelectorValue(sel, ProjectionName)
    && Lookup(args, Overlay) == SelectorValue(sel, Overlay)
  }

  lemma AnswersSelect(args: seq<Argument>, b: Binding, recovery: Recovery, r: Request, sel: Selector)
    requires Answers(args, b, recovery, r, sel)
    ensures Selects(args, sel)
  {
    hide Lookup, SelectorValue, Distinct;
    assert SelectorName(BaseRef) && SelectorName(CommittedOnly) && SelectorName(ProjectionName) && SelectorName(Overlay);
  }

  lemma {:induction false} RecoverFitsIff(s: Status, sel: Selector, args: seq<Argument>)
    requires SelectorOf(s, sel) && Selects(args, sel)
    ensures RecoverFits(s, args) <==> StagedOverlayIsSaid(sel)
  {
    hide ValidGitTree, BlankText, Lookup;
  }

  // A bare authorization text is never blank.
  lemma RequiredNonblankIff(b: Binding, recovery: Recovery, r: Request)
    requires !BlankText(b.lineage) && !BlankText(b.revision) && recovery != NoRecovery && !BlankText(r.authorization)
    ensures Nonblank(RequiredArguments(b, recovery, r)) <==>
              !BlankText(r.successor) && !BlankText(r.reason) && !BlankText(r.actor)
  {
    hide BlankText;
    var args := RequiredArguments(b, recovery, r);
    assert args[2].value == Text(r.successor) && args[4].value == Text(r.reason) && args[5].value == Text(r.actor);
  }

  lemma SelectorsNonblankIff(s: Status, sel: Selector)
    requires SelectorOf(s, sel) && RecoverySelectors(sel).Some?
    ensures Nonblank(RecoverySelectors(sel).value)
  {
    if sel.baseTree != "" { IdentitiesAreNotBlank(sel.baseTree); }
    if sel.baseRef != "" { assert !BlankText(sel.baseRef); }
    hide BlankText, ValidGitTree;
  }

  lemma AuthorizationIsNotBlank(b: Binding, successor: string, actor: string, reason: string)
    ensures !BlankText(ExpectedAuthorization(b, successor, actor, reason))
  {
    var t := ExpectedAuthorization(b, successor, actor, reason);
    assert AuthorizationText.SCHEMA[0] == 'g';
    assert t[0] == AuthorizationText.SCHEMA[0];
  }

  lemma NonblankAppend(a: seq<Argument>, b: seq<Argument>)
    ensures Nonblank(a + b) <==> Nonblank(a) && Nonblank(b)
  {
    hide Blank;
    if Nonblank(a + b) {
      forall i | 0 <= i < |a| ensures !Blank(a[i].value) { assert (a + b)[i] == a[i]; }
      forall i | 0 <= i < |b| ensures !Blank(b[i].value) { assert (a + b)[|a| + i] == b[i]; }
    }
  }

  lemma {:induction false} RecoverExecutionValidIff(b: Binding, recovery: Recovery, r: Request, e: Execution)
    requires r.selector.Some? && RecoverySelectors(r.selector.value).Some?
    requires recovery == ScopeChanged || recovery == InvalidatedRecovery || recovery == EscalatedRecovery
    requires RecoveryIsAuthorized(b, r) && e.binding == b && e.selectors == Some(RecoverySelectors(r.selector.value).value)
    requires e.arguments == RequiredArguments(b, recovery, r) + RecoverySelectors(r.selector.value).value
    requires Answers(e.arguments, b, recovery, r, r.selector.value)
    requires SelectorsIn(e.arguments, RECOVER_SELECTORS) == RecoverySelectors(r.selector.value).value
    ensures ValidRecoverExecution(e) <==>
              ValidLineage(r.successor) && r.successor != b.lineage &&
              (r.selector.value.kind != CurrentChanges ==> ValidSelectorText(BaseOf(r.selector.value)))
  {
    hide Distinct, Lookup, ValidLineage, ValidSelectorText, SelectorsIn, RequiredArguments, RecoverySelectors, SelectorValue,
         Exact, ValidRecoverSelectors, AuthorizationText.Authorization, BaseOf;
    ExactRecover(b, recovery, r, e.arguments);
    AnswersSelect(e.arguments, b, recovery, r, r.selector.value);
    RecoverSelectorsIff(r.selector.value, e.arguments);
  }

  lemma {:induction false} ExactRecover(b: Binding, recovery: Recovery, r: Request, args: seq<Argument>)
    requires r.selector.Some? && RecoverySelectors(r.selector.value).Some?
    requires args == RequiredArguments(b, recovery, r) + RecoverySelectors(r.selector.value).value
    requires Answers(args, b, recovery, r, r.selector.value)
    ensures Exact(args, RECOVER_REQUIRED, RecoverySelectors(r.selector.value).value)
  {
    hide Distinct, Lookup, RequiredArguments;
    RequiredAre(b, recovery, r);
  }

  lemma RecoverSelectorsIff(sel: Selector, args: seq<Argument>)
    requires Selects(args, sel)
    ensures ValidRecoverSelectors(args) <==> (sel.kind != CurrentChanges ==> ValidSelectorText(BaseOf(sel)))
  {
    hide Lookup, ValidSelectorText;
  }

  // What the caller typed, as far as blanks go.
  lemma RecoverNonblankIff(s: Status, b: Binding, r: Request, recovery: Recovery)
    requires ValidLineage(b.lineage) && ValidDigest(b.revision) && recovery != NoRecovery
    requires r.selector.Some? && SelectorOf(s, r.selector.value) && RecoverySelectors(r.selector.value).Some?
    requires RecoveryIsAuthorized(b, r)
    ensures Nonblank(RequiredArguments(b, recovery, r) + RecoverySelectors(r.selector.value).value) <==>
              !BlankText(r.successor) && !BlankText(r.reason) && !BlankText(r.actor)
  {
    hide ValidLineage, ValidDigest, BlankText, RequiredArguments, RecoverySelectors, SelectorOf, Nonblank,
         AuthorizationText.Authorization;
    NonblankAppend(RequiredArguments(b, recovery, r), RecoverySelectors(r.selector.value).value);
    IdentitiesAreNotBlank(b.lineage);
    IdentitiesAreNotBlank(b.revision);
    AuthorizationIsNotBlank(b, r.successor, r.actor, r.reason);
    RequiredNonblankIff(b, recovery, r);
    SelectorsNonblankIff(s, r.selector.value);
  }

  lemma {:induction false} RecoverExecutionAgreesIff(s: Status, a: Authority, r: Request, recovery: Recovery)
    requires Assessed(s) && s.authority == Some(a) && a.state != Validating && a.state != OtherState && s.retry.None?
    requires r.repositoryContext == "" || ValidHandle(r.repositoryContext)
    requires r.selector.Some? && SelectorOf(s, r.selector.value) && RecoverySelectors(r.selector.value).Some?
    requires recovery == ScopeChanged || recovery == InvalidatedRecovery || recovery == EscalatedRecovery
    requires RecoveryIsAuthorized(BindingOf(a, s.targetIdentity, r.repositoryContext), r)
    ensures var b := BindingOf(a, s.targetIdentity, r.repositoryContext);
            var t := Execute(RecoveryAuthorized, RecoverExecution(a.state, b, recovery, r, RecoverySelectors(r.selector.value).value));
            Valid(t) && Fits(s, t) <==> RecoveryIsSpellable(s, r)
  {
    hide Distinct, Lookup, ValidGitTree, RecoverySelectors, ValidHandle, ValidRecoverExecution, ValidSelectorText, SelectorOf, Fits,
         ValidDigest, ValidLineage, BlankText, RecoveryIsAuthorized, Nonblank, BaseOf, SelectorsIn, SelectorValue;
    var b, sel := BindingOf(a, s.targetIdentity, r.repositoryContext), r.selector.value;
    var e := RecoverExecution(a.state, b, recovery, r, RecoverySelectors(sel).value);
    RecoverLookups(s, b, recovery, r);
    RecoverExecutionValidIff(b, recovery, r, e);
    RecoverNonblankIff(s, b, r, recovery);
    IdentitiesAreNotBlank(a.lineage);
    if ValidLineage(r.successor) { IdentitiesAreNotBlank(r.successor); }
    assert Nonblank(e.preconditions) by { StateIsNotBlank(a.state); }
    RecoverExecutionFitsIff(s, a, b, recovery, r, Execute(RecoveryAuthorized, e));
  }

  lemma StateIsNotBlank(state: State)
    requires state != OtherState
    ensures Nonblank([Argument(StateName, OfState(state)), Argument(RecoveryAuthorization, Provided)])
  {
  }

  lemma {:induction false} RecoverExecutionFitsIff(s: Status, a: Authority, b: Binding, recovery: Recovery, r: Request,
                                                   t: Transition)
    requires Assessed(s) && s.authority == Some(a) && a.state != Validating && s.retry.None?
    requires t.Execute? && t.execution.operation == ReviewRecover && t.execution.binding.target == s.targetIdentity
    requires r.selector.Some? && RecoverySelectors(r.selector.value).Some?
    requires t.execution.selectors == Some(RecoverySelectors(r.selector.value).value)
    requires SelectorOf(s, r.selector.value) && Answers(t.execution.arguments, b, recovery, r, r.selector.value)
    ensures Fits(s, t) <==> StagedOverlayIsSaid(r.selector.value)
  {
    hide Distinct, Lookup, RecoverySelectors, RecoverFits, ValidDigest, ValidLineage, ValidGitTree, SelectorOf, StagedOverlayIsSaid,
         SelectorFits;
    AnswersSelect(t.execution.arguments, b, recovery, r, r.selector.value);
    RecoverFitsIff(s, r.selector.value, t.execution.arguments);
    SelectorFitsIff(s, b, recovery, r, t.execution);
  }

  lemma {:induction false} SelectorFitsIff(s: Status, b: Binding, recovery: Recovery, r: Request, e: Execution)
    requires e.operation == ReviewRecover && r.selector.Some? && RecoverySelectors(r.selector.value).Some?
    requires e.selectors == Some(RecoverySelectors(r.selector.value).value)
    requires SelectorOf(s, r.selector.value) && Answers(e.arguments, b, recovery, r, r.selector.value)
    ensures SelectorFits(s, e) <==> RecoverFits(s, e.arguments)
  {
    hide Distinct, Lookup, RecoverySelectors, RecoverFits, SelectorOf, ValidateFits;
    var selectors := RecoverySelectors(r.selector.value).value;
    SelectorLookups(s, r.selector.value);
    GivenLookups(selectors);
    forall i | 0 <= i < |selectors| ensures Lookup(e.arguments, selectors[i].name) == Some(selectors[i].value) {
      assert SelectorName(selectors[i].name);
    }
    assert SelectorName(Overlay);
  }

  lemma {:induction false} RecoveryAgreesIff(s: Status, a: Authority, lenses: seq<string>, artifacts: Artifacts,
                                             r: Request)
    requires Assessed(s) && s.authority == Some(a) && Prepared(s, lenses, artifacts, r)
    requires a.state != Validating && a.state != OtherState && s.retry.None?
    ensures var t := RecoveryTransition(s, BindingOf(a, s.targetIdentity, r.repositoryContext), r);
            Valid(t) && Fits(s, t) <==> (RecoveryIsSigned(s, a, r) ==> RecoveryIsSpellable(s, r))
  {
    hide ValidDigest, ValidLineage, ValidGitTree, ValidHandle, SelectorOf, CaptureOf, RecoverySelectors, RecoveryIsAuthorized,
         RecoverExecution, RecoveryIsSpellable, BindingArguments, ValidInput, ValidExecution, SelectorFits;
    var b := BindingOf(a, s.targetIdentity, r.repositoryContext);
    var recovery := if s.recovery == NoRecovery then InvalidatedRecovery else s.recovery;
    if RecoverySelectors(r.selector.value).Some? {
      if RecoveryIsAuthorized(b, r) { RecoverExecutionAgreesIff(s, a, r, recovery); }
      PlainAgrees(s, a, b, [Argument(Disposition, OfRecovery(recovery))], RecoveryAuthorizationRequired,
                  RecoveryAuthorizationInput, AuthorizeRecovery);
    }
  }

  lemma {:induction false} CorrectionAgreesIff(s: Status, a: Authority, lenses: seq<string>, artifacts: Artifacts,
                                               r: Request)
    requires Assessed(s) && s.authority == Some(a) && Prepared(s, lenses, artifacts, r)
    requires a.state == CorrectionRequired && s.retry.None?
    ensures var t := CorrectionTransition(s, BindingOf(a, s.targetIdentity, r.repositoryContext), r);
            Valid(t) && Fits(s, t) <==>
              (s.action == RecoverAction && RecoveryIsSigned(s, a, r) ==> RecoveryIsSpellable(s, r))
  {
    hide ValidDigest, ValidLineage, ValidGitTree, ValidHandle, SelectorOf, CaptureOf, RecoveryTransition, BindingArguments, ValidInput;
    var b := BindingOf(a, s.targetIdentity, r.repositoryContext);
    RecoveryAgreesIff(s, a, lenses, artifacts, r);
    if r.validation.Some? { ValidationAgrees(s, a, b, r.validation.value); }
    PlainAgrees(s, a, b, [], CorrectionPlanRequired, CorrectionLines, PlanCorrection);
    assert BindingArguments(b) + [] == BindingArguments(b);
  }

  lemma ApprovedAgreesIff(s: Status, a: Authority, lenses: seq<string>, artifacts: Artifacts, r: Request)
    requires Assessed(s) && s.authority == Some(a) && Prepared(s, lenses, artifacts, r)
    requires a.state == Approved && s.retry.None?
    ensures var t := ApprovedTransition(s, BindingOf(a, s.targetIdentity, r.repositoryContext), r);
            Valid(t) && Fits(s, t) <==>
              (s.action == RecoverAction && RecoveryIsSigned(s, a, r) ==> RecoveryIsSpellable(s, r))
  {
    hide ValidDigest, ValidLineage, ValidGitTree, ValidHandle, SelectorOf, CaptureOf, RecoveryTransition, ReceiptTransition,
         BindingArguments, ValidInput, Valid, Fits;
    var b := BindingOf(a, s.targetIdentity, r.repositoryContext);
    var pre := [Argument(StateName, OfState(Approved)), Argument(Receipt, IsPending)];
    RecoveryAgreesIff(s, a, lenses, artifacts, r);
    ReceiptAgrees(s, a, lenses, artifacts, r);
    FinalizeIsValid(ExactReceiptReplay, b, [], pre, []);
    FinalizeFits(s, a, ExactReceiptReplay, b, [], pre, []);
    PlainAgrees(s, a, b, [], GateRequired, GateInput, SelectGate);
    assert BindingArguments(b) + [] == BindingArguments(b);
  }

  lemma StopAgrees(s: Status, reason: ReasonCode)
    requires Assessed(s) && s.applicability != Unrelated && s.repair.candidate.None? && s.retry.None?
    ensures Valid(Stop(reason)) && Fits(s, Stop(reason))
  {
    hide ValidDigest, ValidLineage, ValidGitTree;
  }

  lemma CurrentAgreesIff(s: Status, a: Authority, lenses: seq<string>, artifacts: Artifacts, evidence: bool, r: Request)
    requires Assessed(s) && s.authority == Some(a) && Prepared(s, lenses, artifacts, r)
    ensures var t := CurrentTransition(s, a, lenses, artifacts, evidence, r);
            Valid(t) && Fits(s, t) <==> Acceptable(s, lenses, artifacts, r)
  {
    hide ValidDigest, ValidLineage, ValidGitTree, ValidHandle, SelectorOf, CaptureOf, Valid, Fits, ReviewingTransition,
         CorrectionTransition, ValidatingTransition, RecoveryTransition, ApprovedTransition;
    var b := BindingOf(a, BindingTarget(s, a), r.repositoryContext);
    if s.action == RetryVerificationAction {
      RetryAgrees(s, a, b);
    } else {
      forall reason ensures Valid(Stop(reason)) && Fits(s, Stop(reason)) { StopAgrees(s, reason); }
      match a.state {
        case Reviewing => ReviewingAgreesIff(s, a, lenses, artifacts, r);
        case CorrectionRequired => CorrectionAgreesIff(s, a, lenses, artifacts, r);
        case Validating => ValidatingAgrees(s, a, evidence, r.repositoryContext);
        case Invalidated => RecoveryAgreesIff(s, a, lenses, artifacts, r);
        case Approved => ApprovedAgreesIff(s, a, lenses, artifacts, r);
        case _ =>
      }
    }
  }

  /** The builder meets its validators. For every status the assessment can produce and every request the
      status command can prepare, with anything at all in the fields the caller typed, the transition is
      valid and fits the status exactly when it is acceptable, which is said of the status and the request
      alone: when a recovery is signed it is spellable, and when reviewer results are missing the target still is
      the frozen one. Everything else that is built is accepted. */
  lemma {:induction false} BuilderMeetsValidators(s: Status, lenses: seq<string>, artifacts: Artifacts, evidence: bool,
                                                  r: Request)
    requires Assessed(s) && Prepared(s, lenses, artifacts, r)
    ensures var t := Build(s, lenses, artifacts, evidence, r);
            Valid(t) && Fits(s, t) <==> Acceptable(s, lenses, artifacts, r)
  {
    hide ValidDigest, ValidLineage, ValidGitTree, ValidHandle, CaptureOf, CurrentTransition, RepairTransition, AmbiguousTransition,
         StartArguments;
    match s.applicability {
      case Unrelated =>
        if s.action == StartAction { StartAgrees(s, r); }
      case Ambiguous =>
        AmbiguousAgrees(s);
      case Corrupted =>
        if s.repair.candidate.Some? {
          RepairAgrees(s, r);
        } else {
          StopAgrees(s, CorruptedAuthority);
        }
      case CurrentTarget =>
        CurrentAgreesIff(s, s.authority.value, lenses, artifacts, evidence, r);
    }
  }

  /** The guards are the decisions: each of these reasons is given exactly under its guard. */
  lemma {:induction false} DecisionsAre(s: Status, lenses: seq<string>, artifacts: Artifacts, evidence: bool,
                                        r: Request)
    requires s.applicability == CurrentTarget <==> s.authority.Some?
    requires r.selector.Some?
    ensures var reason := Build(s, lenses, artifacts, evidence, r).reason;
            && (reason == ReviewerResultsRequired <==> AsksForResults(s, lenses, artifacts))
            && (reason == RecoveryAuthorized <==> SignsRecovery(s, r))
            && (reason == ReceiptReady <==> ShowsReceipt(s, r))
  {
    hide RecoveryIsAuthorized, RecoverySelectors, RecoverExecution, RepairArguments, RepairIsAuthorized, StartArguments,
         RetryArguments, BindingArguments, MissingInputs;
    if s.authority.Some? && artifacts.Orders? {
      var b := BindingOf(s.authority.value, BindingTarget(s, s.authority.value), r.repositoryContext);
      InputsAreMissingIff(b, lenses, artifacts.orders, r.capture);
    }
  }

  // A receipt is not shown against a base that no remote advertises, so never against one that is not a word.
  lemma {:induction false} UnspellableBaseStops(s: Status, lenses: seq<string>, artifacts: Artifacts, evidence: bool,
                                                r: Request)
    requires Prepared(s, lenses, artifacts, r) && GoesOn(s) && s.authority.value.state == Approved
    requires s.action != RecoverAction && s.receipt == Present
    requires GateOf(r) == PrePR && r.selector.value.baseRef != "" && !ValidSelectorText(r.selector.value.baseRef)
    ensures Build(s, lenses, artifacts, evidence, r) == Stop(PrePRUnrepresentable)
  {
    hide ValidSelectorText, SelectorOf, Filled, RecoveryTransition;
  }

  lemma InputsAreMissingIff(b: Binding, lenses: seq<string>, orders: seq<nat>, c: Option<CaptureContext>)
    ensures MissingInputs(b, lenses, 0, orders, c) != [] <==> exists o :: 0 <= o < |lenses| && o !in orders
  {
    hide CaptureInput;
    MissingInputsAre(b, lenses, 0, orders, c);
    var inputs := MissingInputs(b, lenses, 0, orders, c);
    if inputs != [] {
      assert inputs[0] == inputs[0];
    }
    if o :| 0 <= o < |lenses| && o !in orders {
      assert CaptureInput(b, lenses[o], o, c) in inputs;
    }
  }
}
