/**
 The vocabulary of a negotiated review status and of the one next transition it names.
 */
module TransitionTypes {
  import opened Wrappers
  import opened ReviewText

  datatype Applicability = CurrentTarget | Unrelated | Ambiguous | Corrupted
  datatype StatusAction =
    | StartAction | FinalizeAction | ValidateAction | RecoverAction | RetryVerificationAction | MaintainerAction
    | SelectLineageAction | RepairAction | ReconcileAction | StopAction

  datatype State = Reviewing | CorrectionRequired | Validating | Invalidated | Approved | Escalated | OtherState
  datatype Version = Compact | Legacy
  datatype Recovery = NoRecovery | ScopeChanged | InvalidatedRecovery | EscalatedRecovery | VerificationRetry
  datatype TargetKind = CurrentChanges | BaseDiff | WorkspaceOverlay | OtherKind
  datatype Projection = Workspace | Staged
  datatype Gate = PostApply | PreCommit | PrePush | PrePR | Release | UnknownGate
  datatype ReceiptStatus = Present | PublicationPending | ExpectedMissing | NotApplicable
  datatype Replay = NotReplayable | ExactReplaySafe | StatusRequired | ManualActionRequired

  // ----- arguments -----

  datatype Name =
    | Contract | Target | ProjectionName | BaseRef | CommittedOnly | Overlay | Lineage | TargetIdentity | BaseTree
    | CandidateTree | Candidates | ExpectedRevision | RepositoryContext | Lens | Order | CapturedResults
    | CapturedEvidence | GateName | PredecessorLineage | ExpectedPredecessorRevision | SuccessorLineage | Disposition
    | Reason | Actor | MaintainerAuthorization | Class | Cause | RepositoryBinding | ValidatingRevision
    | FailedEvidenceHash | FinalizeRequestDigest | IncidentSchema | IncidentClass
    | StateName | CapturedArtifacts | VerificationEvidence | RiskLevel | Receipt | RecoveryAuthorization
    | RepairStatus | UniqueCandidate | CurrentHead | RepairAuthorization

  // What an argument may carry. Only text, a list of names and an absent disposition can be blank.
  datatype Value =
    | Text(text: string) | Yes | Provided | ContractV1 | OfProjection(projection: Projection) | OfGate(gate: Gate)
    | OfRecovery(recovery: Recovery) | OfState(state: State) | Position(order: nat) | Names(names: seq<string>)
    | Complete | Captured | Low | IsPresent | IsPending | Eligible

  datatype Argument = Argument(name: Name, value: Value)

  // Joined with commas, two names or more are never blank.
  predicate Blank(v: Value) {
    match v
    case Text(s) => BlankText(s)
    case Names(names) => |names| == 0 || (|names| == 1 && BlankText(names[0]))
    case OfRecovery(r) => r == NoRecovery
    case OfState(s) => s == OtherState
    case _ => false
  }

  predicate Distinct(args: seq<Argument>) {
    forall i, j :: 0 <= i < j < |args| ==> args[i].name != args[j].name
  }

  // The first argument with a name.
  function Lookup(args: seq<Argument>, n: Name): Option<Value> {
    if args == [] then None else if args[0].name == n then Some(args[0].value) else Lookup(args[1..], n)
  }

  lemma {:induction false} LookupGiven(args: seq<Argument>, a: Argument)
    requires Distinct(args) && a in args
    ensures Lookup(args, a.name) == Some(a.value)
  {
    var i :| 0 <= i < |args| && args[i] == a;
    if i > 0 {
      assert args[1..][i - 1] == a;
      LookupGiven(args[1..], a);
    }
  }

  lemma {:induction false} LookupAbsent(args: seq<Argument>, n: Name)
    requires forall i :: 0 <= i < |args| ==> args[i].name != n
    ensures Lookup(args, n) == None
  {
    if args != [] { LookupAbsent(args[1..], n); }
  }

  /** The argument map, as the code builds it: it refuses a repeated name, and otherwise looks names up. */
  method ArgumentMap(args: seq<Argument>) returns (values: map<Name, Value>, ok: bool)
    ensures ok <==> Distinct(args)
    ensures ok ==> forall n :: Lookup(args, n) == if n in values then Some(values[n]) else None
  {
    values, ok := map[], true;
    for k := 0 to |args|
      invariant Distinct(args[..k])
      invariant forall n :: n in values <==> exists j :: 0 <= j < k && args[j].name == n
      invariant forall j :: 0 <= j < k ==> args[j].name in values && values[args[j].name] == args[j].value
    {
      if args[k].name in values {
        var j :| 0 <= j < k && args[j].name == args[k].name;
        return values, false;
      }
      values := values[args[k].name := args[k].value];
    }
    assert args[..|args|] == args;
    forall n ensures Lookup(args, n) == if n in values then Some(values[n]) else None {
      if n in values {
        var j :| 0 <= j < |args| && args[j].name == n;
        LookupGiven(args, args[j]);
      } else {
        LookupAbsent(args, n);
      }
    }
  }

  // ----- status -----

  datatype Authority = Authority(version: Version, lineage: string, state: State, revision: string)

  datatype TargetProjection = TargetProjection(
    kind: TargetKind, projection: Projection, baseTree: string, candidateTree: string, paths: seq<string>,
    initialIdentity: string)

  datatype Candidate = Candidate(lineage: string, revision: string)

  // An assessment is eligible exactly when it has a candidate.
  datatype Repair = Repair(
    candidate: Option<Candidate>, repairClass: string, cause: string, disposition: string, binding: string, schema: string)

  datatype VerificationRetryProof = VerificationRetryProof(
    validatingRevision: string, target: string, failedEvidence: string, finalizeRequest: string,
    incidentSchema: string, incidentClass: string)

  datatype Status = Status(
    applicability: Applicability, authority: Option<Authority>, receipt: ReceiptStatus, action: StatusAction,
    recovery: Recovery, replay: Replay, lowRisk: bool, targetIdentity: string, authorityTarget: string,
    projection: TargetProjection, repair: Repair, candidates: seq<string>, retry: Option<VerificationRetryProof>)

  function AuthorityTargetIdentity(s: Status): string {
    if s.authorityTarget != "" then s.authorityTarget else s.targetIdentity
  }

  // ----- transitions -----

  datatype ReasonCode =
    | StagedOverlayUnavailable | FreshTargetReady | LineageSelectionRequired | CorruptedAuthority | MissingBinding
    | OriginalRequestRequired | UnchangedAuthority | NativeStopRequired | ArtifactsUnverifiable | CaptureUnavailable
    | ReviewerResultsRequired | CapturedResultsReady | TargetedValidationRequired | CorrectedCandidateUnavailable
    | CorrectionPlanRequired | EvidenceReady | NativeLowRisk | EvidenceRequired | PrePRUnrepresentable | ReceiptReady
    | ExactReceiptReplay | GateRequired | EscalatedAuthority | ManualIntervention | RepairAuthorized
    | RepairAuthorizationRequired | RecoveryScopeUnchanged | RecoveryUnrepresentable | RecoveryAuthorized
    | RecoveryAuthorizationRequired | RetryUnavailable | RetryAuthorizationRequired

  datatype Operation = ReviewStart | ReviewFinalize | ReviewValidate | ReviewRecover | ReviewRepair

  datatype Capture =
    | SelectLineage | CaptureResult | CaptureEvidence | PlanCorrection | RunTargetedValidation | SelectGate
    | AuthorizeRecovery | AuthorizeRepair | AuthorizeVerificationRetry

  datatype InputName =
    | LineageSelection | ReviewerResult | Evidence | CorrectionLines | TargetedValidation | GateInput
    | RecoveryAuthorizationInput | RepairAuthorizationInput | RetryAuthorizationInput

  datatype Schema = Fixed(of: InputName) | Given(schema: string)

  // The frozen material one reviewer result must be bound to; the manifest stands for its own digest.
  datatype Subject = Subject(
    lineage: string, revision: string, target: string, lens: string, order: nat, diff: string, manifest: seq<string>)

  datatype Frozen = Frozen(subject: Subject, diff: string, manifest: seq<string>)

  datatype ValidationRequest = ValidationRequest(lineage: string, revision: string, correctionTarget: string, wellFormed: bool)

  datatype Input = Input(
    name: InputName, schema: Schema, capture: Capture, arguments: seq<Argument>, frozen: Option<Frozen>,
    validation: Option<ValidationRequest>)

  // `context` is the opaque repository handle, empty when there is none.
  datatype Binding = Binding(lineage: string, revision: string, target: string, context: string)

  datatype Execution = Execution(
    operation: Operation, arguments: seq<Argument>, selectors: Option<seq<Argument>>, preconditions: seq<Argument>,
    binding: Binding, artifacts: seq<nat>)

  datatype Transition =
    | Stop(reason: ReasonCode)
    | Collect(reason: ReasonCode, inputs: seq<Input>)
    | Execute(reason: ReasonCode, execution: Execution)
}
