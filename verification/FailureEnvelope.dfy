/**
 How an error is reported: the failure envelope of a negotiated review operation, and its validator.

 An error is the sequence of causes an unwrapping search visits, outermost first. The envelope is
 chosen by the first kind of cause, in a fixed order of kinds, that occurs anywhere in it.
 */
module FailureEnvelope {
  import opened Wrappers
  import opened ReviewText
  import opened ReviewArguments

  datatype GateResult = Allow | ScopeChanged | Invalidated | Escalated
  datatype DiscoveryKind = Missing | Unrelated | TargetScopeChanged | Ambiguous | Corrupted

  datatype Cause =
    | RetryDenied
    | BindingConflict(expected: string, current: string)
    | ReplayMismatch(lineage: string)
    | Publication(manual: bool, lineage: string, digest: string)
    | BindingPublication
    | StartContext(selected: bool, lineage: string)
    | Progress(lineage: string)
    | RepairProgress(lineage: string, digest: string, identity: string, committed: bool, exact: bool)
    | GitTimeout(aggregate: bool)
    | GitFailure
    | GitControl(text: string)
    | DeadlineExceeded
    | Cancelled
    | PreflightFailed
    | LegacyReadOnly
    | LockTimeout
    | LockCancelled
    | TargetResolution
    | GateDenied(result: GateResult, gated: bool, scope: Option<Scope>)
    | Discovery(kind: DiscoveryKind, category: string, scope: Option<Scope>)
    | ImmutableConflict
    | Opaque

  type Error = seq<Cause>

  const UNRANKED: nat := 20

  // The fixed order in which kinds of causes are looked for.
  function Rank(c: Cause): nat {
    match c
    case RetryDenied => 0
    case BindingConflict(_, _) => 1
    case ReplayMismatch(_) => 2
    case Publication(_, _, _) => 3
    case BindingPublication => 4
    case StartContext(_, _) => 5
    case Progress(_) => 6
    case RepairProgress(_, _, _, _, _) => 7
    case GitTimeout(_) => 8
    case GitFailure => 9
    case GitControl(_) => 10
    case DeadlineExceeded => 11
    case PreflightFailed => 12
    case LegacyReadOnly => 13
    case LockTimeout => 14
    case LockCancelled => 15
    case TargetResolution => 16
    case GateDenied(_, _, _) => 17
    case Discovery(_, _, _) => 18
    case _ => UNRANKED
  }

  // The cause that decides: of the first kind that occurs at all, the outermost.
  function Decisive(e: Error): (r: Option<Cause>)
    ensures r.Some? ==> r.value in e && forall c :: c in e ==> Rank(r.value) <= Rank(c)
    ensures r.None? <==> e == []
  {
    if e == [] then None
    else
      var rest := Decisive(e[1..]);
      if rest.Some? && Rank(rest.value) < Rank(e[0]) then rest else Some(e[0])
  }

  predicate TimesOut(e: Error) {
    exists i :: 0 <= i < |e| && e[i].GitTimeout?
  }

  predicate GitFails(e: Error) {
    exists i :: 0 <= i < |e| && e[i].GitFailure?
  }

  predicate Expires(e: Error) {
    exists i :: 0 <= i < |e| && e[i].DeadlineExceeded?
  }

  predicate IsCancelled(e: Error) {
    exists i :: 0 <= i < |e| && e[i].Cancelled?
  }

  // The text of the outermost process-control error.
  function ControlText(e: Error): Option<string> {
    if e == [] then None else if e[0].GitControl? then Some(e[0].text) else ControlText(e[1..])
  }

  // ----- the envelope -----

  datatype Phase = Preflight | PreNative | NativeRunning | NativeCommitted | Reconciliation
  datatype Outcome = NotStarted | Unknown | Committed
  datatype Applicability = CurrentTarget | UnrelatedTarget | AmbiguousTarget | CorruptedAuthority | NotEvaluated
  datatype Replay = NotReplayable | ExactReplaySafe | StatusRequired | ManualActionRequired
  datatype Action =
    | ReviewStatus | ReviewFinalize | ReviewBindSDD | ReviewRepair | Stop | MaintainerAction | RetryNow
    | RetryWithBackoff | CorrectRequest | Proceed

  datatype Code =
    | OutcomeUnknown | RetryWasDenied | BindingRevisionConflict | RequestMismatch | ReceiptConflict | ReceiptPending
    | BindingPending | ContextUnavailable | GitTimedOut | GitFailed | OperationTimeout | RepairPending | InvalidRequest
    | LegacyIsReadOnly | LockTimedOut | LockWasCancelled | TargetUnresolved | GateCode(result: GateResult)
    | DiscoveryCode(kind: DiscoveryKind) | OperationFailed

  datatype Input =
    | LineageId | Change | ExpectedBindingRevision | PredecessorLineage | ExpectedPredecessorRevision
    | SuccessorLineage | Disposition | Reason | Actor | Incident | MaintainerAuthorization | BaseRef
    | Unsupported(name: string)

  // A message is a fixed sentence, or one that ends in the text of a process-control error.
  datatype Message = Fixed | Ending(prefix: nat, text: string)

  const BEFORE_MUTATION: nat := 86
  const AFTER_COMMIT: nat := 106
  const MESSAGE_LIMIT: nat := 240
  const PATH_COUNT_LIMIT: nat := 1000000

  datatype Tree = Tree(candidate: string, paths: string)
  datatype Scope = Scope(
    expected: Tree, actual: Tree, count: nat, pathsDigest: string, lineage: string, revision: string,
    byRecover: bool, required: seq<Input>)

  datatype Context = NoContext | ScopeContext(scope: Scope) | BindingContext(expected: string, current: string)

  datatype Failure = Failure(
    operation: Operation, phase: Phase, code: Code, message: Message, outcome: Outcome, applicability: Applicability,
    retrySafe: bool, replay: Replay, lineage: string, digest: string, identity: string, required: seq<Input>,
    next: Action, context: Context)

  const BINDING_INPUTS: seq<Input> := [Change, LineageId, ExpectedBindingRevision]
  const RECOVERY_INPUTS: seq<Input> :=
    [PredecessorLineage, ExpectedPredecessorRevision, SuccessorLineage, Disposition, Reason, Actor]

  function UnknownFailure(op: Operation, args: seq<string>): Failure {
    Failure(op, NativeRunning, OutcomeUnknown, Fixed, Unknown, NotEvaluated, false, StatusRequired,
            SafeLineage(op, args), "", "", [], ReviewStatus, NoContext)
  }

  // Nothing started, nothing to replay automatically.
  function StoppedBefore(f: Failure, code: Code, message: Message): Failure {
    f.(phase := PreNative, code := code, message := message, outcome := NotStarted, applicability := NotEvaluated,
       retrySafe := false, replay := ManualActionRequired, next := Stop)
  }

  function TimeoutFailure(f: Failure, op: Operation, args: seq<string>): Failure {
    var g := f.(code := OperationTimeout, applicability := NotEvaluated);
    if MetadataOf(op).timeoutRetryable then
      g.(phase := PreNative, outcome := NotStarted, retrySafe := true, replay := NotReplayable, next := RetryNow)
    else if MayMutate(op, args) then
      g.(phase := NativeRunning, outcome := Unknown, retrySafe := false, replay := StatusRequired, next := ReviewStatus)
    else
      g.(phase := PreNative, outcome := NotStarted, retrySafe := false, replay := ManualActionRequired, next := Stop)
  }

  function ProgressFailure(f: Failure, e: Error, lineage: string): Failure {
    var g := f.(phase := NativeCommitted, outcome := Unknown, applicability := CurrentTarget, retrySafe := false,
                replay := StatusRequired, lineage := lineage, required := [], next := ReviewStatus);
    if TimesOut(e) then g.(code := GitTimedOut)
    else if GitFails(e) then g.(code := GitFailed)
    else if ControlText(e).Some? then g.(code := GitFailed, message := Ending(AFTER_COMMIT, ControlText(e).value))
    else if Expires(e) then g.(code := OperationTimeout)
    else g
  }

  function RepairFailure(f: Failure, e: Error, p: Cause): Failure
    requires p.RepairProgress?
  {
    var g := f.(lineage := p.lineage, digest := p.digest, identity := p.identity, applicability := NotEvaluated,
                required := [LineageId],
                code := if Expires(e) || IsCancelled(e) then OperationTimeout else RepairPending,
                phase := if p.committed then NativeCommitted else NativeRunning,
                outcome := if p.committed then Committed else Unknown);
    if p.exact then g.(retrySafe := true, replay := ExactReplaySafe, next := ReviewRepair)
    else g.(retrySafe := false, replay := StatusRequired, next := ReviewStatus)
  }

  function StartFailure(f: Failure, c: Cause): Failure
    requires c.StartContext?
  {
    var g := f.(code := ContextUnavailable, lineage := c.lineage, retrySafe := false);
    if !c.selected then
      g.(phase := PreNative, outcome := NotStarted, applicability := NotEvaluated, replay := ManualActionRequired, next := Stop)
    else
      g.(phase := NativeCommitted, outcome := Unknown, applicability := CurrentTarget, replay := StatusRequired,
         required := [LineageId], next := ReviewStatus)
  }

  function PublicationFailure(f: Failure, c: Cause): Failure
    requires c.Publication?
  {
    var g := f.(phase := NativeCommitted, outcome := Committed, applicability := CurrentTarget, lineage := c.lineage,
                digest := c.digest);
    if c.manual then g.(code := ReceiptConflict, replay := ManualActionRequired, required := [], next := MaintainerAction)
    else g.(code := ReceiptPending, replay := ExactReplaySafe, required := [LineageId], next := ReviewFinalize)
  }

  function GateAction(r: GateResult): Action {
    match r
    case Allow => Proceed
    case Escalated => Stop
    case _ => MaintainerAction
  }

  function ScopeOf(s: Option<Scope>): Context {
    if s.Some? then ScopeContext(s.value) else NoContext
  }

  function GateFailure(f: Failure, c: Cause): Failure
    requires c.GateDenied?
  {
    var g := f.(phase := Preflight, code := GateCode(c.result), outcome := NotStarted, applicability := CurrentTarget,
                retrySafe := true, replay := ManualActionRequired, next := GateAction(c.result),
                context := if c.gated then ScopeOf(c.scope) else NoContext);
    if c.result == ScopeChanged && c.scope.Some? then g.(retrySafe := false, required := c.scope.value.required) else g
  }

  function DiscoveryFailure(f: Failure, c: Cause): Failure
    requires c.Discovery?
  {
    var g := f.(phase := PreNative, code := DiscoveryCode(c.kind), outcome := NotStarted, applicability := UnrelatedTarget,
                retrySafe := false, replay := ManualActionRequired, next := Stop);
    match c.kind
    case Missing => g.(applicability := NotEvaluated)
    case Unrelated => g
    case TargetScopeChanged =>
      (if c.scope.Some?
       then g.(context := ScopeContext(c.scope.value), applicability := CurrentTarget, required := c.scope.value.required)
       else g).(next := MaintainerAction)
    case Ambiguous => g.(applicability := AmbiguousTarget, required := [LineageId], next := ReviewStatus)
    case Corrupted => g.(applicability := CorruptedAuthority)
  }

  predicate ReadOnly(op: Operation) {
    op == Capabilities || op == Status || op == Validate
  }

  function RetryDeniedFailure(f: Failure): Failure {
    f.(phase := PreNative, code := RetryWasDenied, outcome := NotStarted, applicability := CurrentTarget,
       replay := ManualActionRequired, next := Stop)
  }

  function BindingConflictFailure(f: Failure, c: Cause): Failure
    requires c.BindingConflict?
  {
    f.(phase := PreNative, code := BindingRevisionConflict, outcome := NotStarted, applicability := CurrentTarget,
       retrySafe := true, replay := NotReplayable, required := BINDING_INPUTS, next := ReviewBindSDD,
       context := BindingContext(c.expected, c.current))
  }

  function MismatchFailure(f: Failure, c: Cause): Failure
    requires c.ReplayMismatch?
  {
    f.(phase := Reconciliation, code := RequestMismatch, applicability := CurrentTarget, lineage := c.lineage,
       required := [LineageId])
  }

  function BindingPublicationFailure(f: Failure, argsDigest: string): Failure {
    f.(phase := NativeCommitted, code := BindingPending, outcome := Committed, applicability := CurrentTarget,
       retrySafe := true, replay := ExactReplaySafe, digest := argsDigest, required := BINDING_INPUTS, next := ReviewBindSDD)
  }

  function LockFailure(f: Failure, timedOut: bool): Failure {
    f.(phase := PreNative, code := if timedOut then LockTimedOut else LockWasCancelled, outcome := NotStarted,
       retrySafe := timedOut, replay := ManualActionRequired, next := if timedOut then RetryWithBackoff else Stop)
  }

  function UnexplainedFailure(f: Failure, op: Operation): Failure {
    if ReadOnly(op) then
      f.(phase := PreNative, code := OperationFailed, outcome := NotStarted, retrySafe := true, replay := NotReplayable,
         next := RetryNow)
    else f
  }

  function EnvelopeOf(f: Failure, op: Operation, args: seq<string>, argsDigest: string, e: Error, c: Cause): Failure {
    match c
    case RetryDenied => RetryDeniedFailure(f)
    case BindingConflict(_, _) => BindingConflictFailure(f, c)
    case ReplayMismatch(_) => MismatchFailure(f, c)
    case Publication(_, _, _) => PublicationFailure(f, c)
    case BindingPublication => BindingPublicationFailure(f, argsDigest)
    case StartContext(_, _) => StartFailure(f, c)
    case Progress(lineage) => ProgressFailure(f, e, lineage)
    case RepairProgress(_, _, _, _, _) => RepairFailure(f, e, c)
    case GitTimeout(aggregate) => if aggregate then TimeoutFailure(f, op, args) else StoppedBefore(f, GitTimedOut, Fixed)
    case GitFailure => StoppedBefore(f, GitFailed, Fixed)
    case GitControl(text) => StoppedBefore(f, GitFailed, Ending(BEFORE_MUTATION, text))
    case DeadlineExceeded => TimeoutFailure(f, op, args)
    case PreflightFailed =>
      f.(phase := Preflight, code := InvalidRequest, outcome := NotStarted, retrySafe := true, replay := NotReplayable,
         next := CorrectRequest)
    case LegacyReadOnly =>
      f.(code := LegacyIsReadOnly, outcome := NotStarted, applicability := CurrentTarget, replay := NotReplayable, next := Stop)
    case LockTimeout => LockFailure(f, true)
    case LockCancelled => LockFailure(f, false)
    case TargetResolution =>
      f.(phase := PreNative, code := TargetUnresolved, outcome := NotStarted, retrySafe := true, replay := NotReplayable,
         required := [BaseRef], next := CorrectRequest)
    case GateDenied(_, _, _) => GateFailure(f, c)
    case Discovery(_, _, _) => DiscoveryFailure(f, c)
    case _ => UnexplainedFailure(f, op)
  }

  /** The classification: one cause decides. `argsDigest` is the hash of the arguments. */
  function Classify(op: Operation, args: seq<string>, argsDigest: string, e: Error): Failure {
    var f := UnknownFailure(op, args);
    match Decisive(e)
    case None => UnexplainedFailure(f, op)
    case Some(c) => EnvelopeOf(f, op, args, argsDigest, e, c)
  }

  // ----- the validator -----

  // A trimmed single line within the limit.
  predicate ValidMessage(m: Message) {
    match m
    case Fixed => true
    case Ending(prefix, text) =>
      && text != "" && !Space(text[|text| - 1]) && prefix + |text| <= MESSAGE_LIMIT
      && '\n' !in text && '\r' !in text
  }

  predicate ValidScope(f: Failure, s: Scope) {
    && f.operation == Validate
    && (f.code == GateCode(ScopeChanged) || f.code == DiscoveryCode(TargetScopeChanged))
    && s.count <= PATH_COUNT_LIMIT
    && ValidGitTree(s.expected.candidate) && ValidDigest(s.expected.paths)
    && ValidGitTree(s.actual.candidate) && ValidDigest(s.actual.paths) && ValidDigest(s.pathsDigest)
    && ValidLineage(s.lineage) && ValidDigest(s.revision)
    && s.byRecover && f.required == s.required && s.required == RECOVERY_INPUTS
  }

  predicate ValidContext(f: Failure) {
    match f.context
    case NoContext => true
    case ScopeContext(s) => ValidScope(f, s)
    case BindingContext(expected, current) =>
      && f.operation == BindSDD && f.code == BindingRevisionConflict
      && (expected == "" || ValidDigest(expected)) && (current == "" || ValidDigest(current))
      && f.required == BINDING_INPUTS && f.next == ReviewBindSDD
  }

  predicate ValidIdentity(f: Failure) {
    && (f.lineage != "" ==> ValidLineage(f.lineage))
    && (f.digest != "" ==> ValidDigest(f.digest) && f.lineage != "")
    && (f.identity != "" ==> ValidDigest(f.identity) && f.digest != "" && f.operation == Repair)
    && (f.operation == Repair && f.digest != "" ==> f.identity != "")
  }

  // The one retry an unknown outcome may offer: the repair's own bound replay.
  predicate BoundRepairReplay(f: Failure) {
    && f.operation == Repair && f.retrySafe && f.replay == ExactReplaySafe && f.next == ReviewRepair
    && f.digest != "" && f.identity != ""
  }

  predicate ValidUnknown(f: Failure) {
    f.outcome == Unknown ==>
      BoundRepairReplay(f) || (!f.retrySafe && f.replay == StatusRequired && f.next == ReviewStatus)
  }

  predicate ValidExactReplay(f: Failure) {
    f.replay == ExactReplaySafe ==>
      && (f.outcome == Committed || (f.operation == Repair && f.outcome == Unknown))
      && f.lineage != "" && f.digest != ""
      && match f.operation
         case Finalize => f.required == [LineageId] && f.next == ReviewFinalize
         case BindSDD => f.required == BINDING_INPUTS && f.next == ReviewBindSDD
         case Repair => f.required == [LineageId] && f.next == ReviewRepair && f.identity != ""
         case _ => false
  }

  predicate Valid(f: Failure) {
    && ValidMessage(f.message)
    && (forall i :: 0 <= i < |f.required| ==> !f.required[i].Unsupported?)
    && ValidContext(f) && ValidIdentity(f) && ValidUnknown(f) && ValidExactReplay(f)
  }

  // ----- what the producers build -----

  predicate LineageOrNone(s: string) {
    s == "" || ValidLineage(s)
  }

  // Diagnostics of a changed scope: everything well formed, but for the number of paths, which nothing bounds.
  predicate ProducedScope(s: Scope) {
    && ValidGitTree(s.expected.candidate) && ValidDigest(s.expected.paths)
    && ValidGitTree(s.actual.candidate) && ValidDigest(s.actual.paths) && ValidDigest(s.pathsDigest)
    && ValidLineage(s.lineage) && ValidDigest(s.revision) && s.byRecover && s.required == RECOVERY_INPUTS
  }

  predicate Produced(op: Operation, args: seq<string>, c: Cause) {
    match c
    case BindingConflict(expected, current) =>
      op == BindSDD && (expected == "" || ValidDigest(expected)) && (current == "" || ValidDigest(current))
    case ReplayMismatch(lineage) => LineageOrNone(lineage)
    case Publication(manual, lineage, digest) =>
      op == Finalize && ValidLineage(lineage) && (ValidDigest(digest) || (manual && digest == ""))
    case BindingPublication => op == BindSDD && SafeLineage(op, args) != ""
    case StartContext(_, lineage) => LineageOrNone(lineage)
    case Progress(lineage) => op == Finalize && LineageOrNone(lineage)
    case RepairProgress(lineage, digest, identity, _, _) =>
      op == Repair && ValidLineage(lineage) && ValidDigest(digest) && ValidDigest(identity)
    case GateDenied(result, _, scope) =>
      op == Validate && (scope.Some? ==> result == ScopeChanged && ProducedScope(scope.value))
    case Discovery(kind, _, scope) =>
      op == Validate && (scope.Some? ==> kind == TargetScopeChanged && ProducedScope(scope.value))
    case _ => true
  }

  ghost predicate ProducedError(op: Operation, args: seq<string>, argsDigest: string, e: Error) {
    ValidDigest(argsDigest) && forall c :: c in e ==> Produced(op, args, c)
  }

  // The process-control text a report would end in, with the length of what precedes it.
  function ReportedControl(e: Error): Option<(nat, string)> {
    match Decisive(e)
    case Some(GitControl(text)) => Some((BEFORE_MUTATION, text))
    case Some(Progress(_)) =>
      if TimesOut(e) || GitFails(e) || ControlText(e).None? then None else Some((AFTER_COMMIT, ControlText(e).value))
    case _ => None
  }

  // The changed scope a report would carry.
  function ReportedScope(e: Error): Option<Scope> {
    match Decisive(e)
    case Some(GateDenied(_, gated, scope)) => if gated then scope else None
    case Some(Discovery(_, _, scope)) => scope
    case _ => None
  }

  predicate Reportable(e: Error) {
    && (ReportedControl(e).Some? ==> ValidMessage(Ending(ReportedControl(e).value.0, ReportedControl(e).value.1)))
    && (ReportedScope(e).Some? ==> ReportedScope(e).value.count <= PATH_COUNT_LIMIT)
  }

  // ----- every producible error gets an envelope -----

  lemma SafeLineageIsValid(op: Operation, args: seq<string>)
    ensures LineageOrNone(SafeLineage(op, args))
  {
  }

  lemma EmptyIsInvalid()
    ensures !ValidLineage("") && !ValidDigest("")
  {
  }

  // An envelope with no replay identity and no context is as valid as its message, unless it says unknown
  // and offers something other than status.
  lemma SimpleIsValid(f: Failure)
    requires f.digest == "" && f.identity == "" && f.context == NoContext && LineageOrNone(f.lineage)
    requires forall i :: 0 <= i < |f.required| ==> !f.required[i].Unsupported?
    requires f.replay != ExactReplaySafe && ValidUnknown(f)
    ensures Valid(f) <==> ValidMessage(f.message)
  {
    hide ValidLineage, ValidDigest;
  }

  lemma {:induction false} PublicationIsValid(op: Operation, args: seq<string>, c: Cause)
    requires c.Publication? && Produced(op, args, c)
    ensures Valid(PublicationFailure(UnknownFailure(op, args), c))
  {
    hide Parsed, ValidLineage, ValidDigest, SafeLineage;
    EmptyIsInvalid();
  }

  lemma {:induction false} BindingIsValid(op: Operation, args: seq<string>, argsDigest: string, c: Cause)
    requires Produced(op, args, c) && ValidDigest(argsDigest)
    ensures c.BindingConflict? ==> Valid(BindingConflictFailure(UnknownFailure(op, args), c))
    ensures c.BindingPublication? ==> Valid(BindingPublicationFailure(UnknownFailure(op, args), argsDigest))
  {
    hide Parsed, ValidLineage, ValidDigest, SafeLineage;
    SafeLineageIsValid(op, args);
    EmptyIsInvalid();
  }

  lemma {:induction false} RepairIsValid(op: Operation, args: seq<string>, e: Error, p: Cause)
    requires p.RepairProgress? && Produced(op, args, p)
    ensures Valid(RepairFailure(UnknownFailure(op, args), e, p))
  {
    hide Parsed, ValidLineage, ValidDigest, SafeLineage;
    EmptyIsInvalid();
  }

  lemma TimeoutIsValid(op: Operation, args: seq<string>)
    ensures Valid(TimeoutFailure(UnknownFailure(op, args), op, args))
  {
    hide Parsed, ValidLineage, MetadataOf, SafeLineage;
    SafeLineageIsValid(op, args);
  }

  lemma {:induction false} GateIsValidIff(op: Operation, args: seq<string>, c: Cause)
    requires c.GateDenied? && Produced(op, args, c)
    ensures Valid(GateFailure(UnknownFailure(op, args), c)) <==>
              (c.gated && c.scope.Some? ==> c.scope.value.count <= PATH_COUNT_LIMIT)
  {
    hide Parsed, ValidLineage, ValidDigest, ValidGitTree, MetadataOf, SafeLineage;
    SafeLineageIsValid(op, args);
  }

  lemma {:induction false} DiscoveryIsValidIff(op: Operation, args: seq<string>, c: Cause)
    requires c.Discovery? && Produced(op, args, c)
    ensures Valid(DiscoveryFailure(UnknownFailure(op, args), c)) <==> (c.scope.Some? ==> c.scope.value.count <= PATH_COUNT_LIMIT)
  {
    hide Parsed, ValidLineage, ValidDigest, ValidGitTree, MetadataOf, SafeLineage;
    SafeLineageIsValid(op, args);
  }

  // The envelopes that carry nothing but a message.
  predicate Plain(c: Cause) {
    c.RetryDenied? || c.ReplayMismatch? || c.StartContext? || c.Progress? || (c.GitTimeout? && !c.aggregate) || c.GitFailure? ||
    c.GitControl? || c.PreflightFailed? || c.LegacyReadOnly? || c.LockTimeout? || c.LockCancelled? || c.TargetResolution? ||
    Rank(c) == UNRANKED
  }

  lemma {:induction false} PlainIsValidIff(op: Operation, args: seq<string>, argsDigest: string, e: Error, c: Cause)
    requires Plain(c) && Produced(op, args, c)
    ensures var f := EnvelopeOf(UnknownFailure(op, args), op, args, argsDigest, e, c);
            && (Valid(f) <==> ValidMessage(f.message))
            && f.message == match c
                            case GitControl(text) => Ending(BEFORE_MUTATION, text)
                            case Progress(_) =>
                              if TimesOut(e) || GitFails(e) || ControlText(e).None? then Fixed
                              else Ending(AFTER_COMMIT, ControlText(e).value)
                            case _ => Fixed
  {
    hide Parsed, ValidLineage, ValidDigest, SafeLineage, ValidMessage, Valid, TimesOut, GitFails, ControlText, Expires;
    SafeLineageIsValid(op, args);
    SimpleIsValid(EnvelopeOf(UnknownFailure(op, args), op, args, argsDigest, e, c));
  }

  /** Envelope totality. An error the producers can build gets an envelope that passes its own validator,
      except in two families that nothing bounds: the text of a process-control error that does not make
      a trimmed line within the limit, and more differing paths than the limit. */
  lemma {:induction false} EnvelopeValidIff(op: Operation, args: seq<string>, argsDigest: string, e: Error)
    requires ProducedError(op, args, argsDigest, e)
    ensures Valid(Classify(op, args, argsDigest, e)) <==> Reportable(e)
  {
    hide Parsed, ValidLineage, ValidDigest, MetadataOf, SafeLineage, Valid, Produced, ValidMessage, RepairFailure, GateFailure,
         DiscoveryFailure, TimeoutFailure, PublicationFailure, BindingConflictFailure, BindingPublicationFailure, ControlText,
         TimesOut, GitFails;
    assert ValidMessage(Fixed) by { FixedIsValid(); }
    match Decisive(e) {
      case None =>
        PlainIsValidIff(op, args, argsDigest, e, Opaque) by { OpaqueIsProduced(op, args); }
      case Some(c) =>
        assert Produced(op, args, c);
        if Plain(c) { PlainIsValidIff(op, args, argsDigest, e, c); }
        else { RichIsValidIff(op, args, argsDigest, e, c); }
    }
  }

  lemma FixedIsValid()
    ensures ValidMessage(Fixed)
  {
  }

  lemma OpaqueIsProduced(op: Operation, args: seq<string>)
    ensures Produced(op, args, Opaque)
  {
  }

  // The envelopes with a replay identity or a context.
  lemma {:induction false} RichIsValidIff(op: Operation, args: seq<string>, argsDigest: string, e: Error, c: Cause)
    requires !Plain(c) && Produced(op, args, c) && ValidDigest(argsDigest)
    ensures Valid(EnvelopeOf(UnknownFailure(op, args), op, args, argsDigest, e, c)) <==>
              match c
              case GateDenied(_, gated, scope) => gated && scope.Some? ==> scope.value.count <= PATH_COUNT_LIMIT
              case Discovery(_, _, scope) => scope.Some? ==> scope.value.count <= PATH_COUNT_LIMIT
              case _ => true
  {
    hide Valid, RepairFailure, GateFailure, DiscoveryFailure, TimeoutFailure, PublicationFailure, BindingConflictFailure,
         BindingPublicationFailure, Produced, UnknownFailure, ValidDigest;
    match c {
      case BindingConflict(_, _) => BindingIsValid(op, args, argsDigest, c);
      case BindingPublication => BindingIsValid(op, args, argsDigest, c);
      case Publication(_, _, _) => PublicationIsValid(op, args, c);
      case RepairProgress(_, _, _, _, _) => RepairIsValid(op, args, e, c);
      case GateDenied(_, _, _) => GateIsValidIff(op, args, c);
      case Discovery(_, _, _) => DiscoveryIsValidIff(op, args, c);
      case _ => TimeoutIsValid(op, args);
    }
  }

  // Both families are real: a process-control error whose text spans two lines, and one path too many.
  lemma UnreportableErrors(args: seq<string>, argsDigest: string, first: string, second: string, s: Scope)
    requires ValidDigest(argsDigest) && ProducedScope(s) && s.count == PATH_COUNT_LIMIT + 1
    ensures var e := [GitControl(first + "\n" + second)];
            ProducedError(Finalize, args, argsDigest, e) && !Valid(Classify(Finalize, args, argsDigest, e))
    ensures var e := [GateDenied(ScopeChanged, true, Some(s))];
            ProducedError(Validate, args, argsDigest, e) && !Valid(Classify(Validate, args, argsDigest, e))
  {
    hide ValidDigest, ProducedScope, Classify, Valid;
    var text := first + "\n" + second;
    assert text[|first|] == '\n';
    EnvelopeValidIff(Finalize, args, argsDigest, [GitControl(text)]);
    EnvelopeValidIff(Validate, args, argsDigest, [GateDenied(ScopeChanged, true, Some(s))]);
  }

  predicate SoundOffer(f: Failure) {
    && (f.outcome == Unknown && f.retrySafe ==> BoundRepairReplay(f))
    && (f.replay == ExactReplaySafe ==> f.lineage != "" && f.digest != "" && f.outcome != NotStarted)
  }

  lemma ValidOffersAreSound(f: Failure)
    requires Valid(f)
    ensures SoundOffer(f)
  {
    hide ValidMessage, ValidContext, ValidIdentity, ValidLineage, ValidDigest;
  }

  lemma {:induction false} OfferIsSound(op: Operation, args: seq<string>, argsDigest: string, e: Error, c: Cause)
    requires Produced(op, args, c) && ValidDigest(argsDigest)
    ensures SoundOffer(EnvelopeOf(UnknownFailure(op, args), op, args, argsDigest, e, c))
  {
    hide Valid, ValidMessage, ValidLineage, ValidDigest, Parsed, Produced, SafeLineage, MetadataOf, MayMutate, RepairFailure,
         TimeoutFailure, PublicationFailure, BindingConflictFailure, BindingPublicationFailure, ControlText, TimesOut, GitFails,
         Expires;
    if !Plain(c) && !c.GateDenied? && !c.Discovery? {
      RichIsValidIff(op, args, argsDigest, e, c);
      ValidOffersAreSound(EnvelopeOf(UnknownFailure(op, args), op, args, argsDigest, e, c));
    }
  }

  /** What an envelope offers is sound, whether or not its message could be printed: an unknown outcome
      never offers a retry except the repair's own bound replay, and an exact replay always names the
      lineage and the request, after something was or may have been committed. */
  lemma {:induction false} OffersAreSound(op: Operation, args: seq<string>, argsDigest: string, e: Error)
    requires ProducedError(op, args, argsDigest, e)
    ensures var f := Classify(op, args, argsDigest, e);
            && (f.outcome == Unknown && f.retrySafe ==> BoundRepairReplay(f))
            && (f.replay == ExactReplaySafe ==> f.lineage != "" && f.digest != "" && f.outcome != NotStarted)
  {
    hide EnvelopeOf, Produced, ValidDigest, BoundRepairReplay;
    OpaqueIsProduced(op, args);
    OfferIsSound(op, args, argsDigest, e, if Decisive(e).Some? then Decisive(e).value else Opaque);
  }

  predicate SaysCommitted(c: Cause) {
    c.Publication? || c.BindingPublication? || (c.RepairProgress? && c.committed)
  }

  lemma CommittedCause(op: Operation, args: seq<string>, argsDigest: string, e: Error, c: Cause)
    ensures EnvelopeOf(UnknownFailure(op, args), op, args, argsDigest, e, c).outcome == Committed <==> SaysCommitted(c)
  {
    hide MetadataOf, SafeLineage, MayMutate, TimesOut, GitFails, ControlText, Expires, IsCancelled;
  }

  // Exactly these causes are reported as committed.
  lemma {:induction false} CommittedCauses(op: Operation, args: seq<string>, argsDigest: string, e: Error)
    ensures Classify(op, args, argsDigest, e).outcome == Committed <==>
              Decisive(e).Some? && SaysCommitted(Decisive(e).value)
  {
    hide EnvelopeOf, SafeLineage;
    if Decisive(e).Some? { CommittedCause(op, args, argsDigest, e, Decisive(e).value); }
  }

  // ----- publishing the receipt -----

  // What is found where the receipt should be.
  datatype Existing<T> = Nothing | Unreadable | Unparsable | Receipt(content: T)

  // inspectCompactFacadeReceipt: whether the derived receipt is there, or why nothing may be put there.
  function Inspect<T(==)>(existing: Existing<T>, expected: T): Option<bool> {
    match existing
    case Nothing => Some(false)
    case Unreadable => None
    case Unparsable => None
    case Receipt(content) => if content == expected then Some(true) else None
  }

  // newFacadeReceiptPublicationError
  function PublicationCause(lineage: string, digest: string, cause: Error): Cause {
    Publication(exists i :: 0 <= i < |cause| && cause[i].ImmutableConflict?, lineage, digest)
  }

  // A terminal authority whose receipt cannot be accepted is reported before anything is published, with
  // the digest of the pending request if there is one. Every such failure is a conflict.
  function RejectedReceipt(lineage: string, pending: Option<string>): Error {
    [PublicationCause(lineage, if pending.Some? then pending.value else "", [ImmutableConflict])]
  }

  /** A receipt already on disk is replaced by nothing: a different or unreadable one asks for a
      maintainer. That is the only report of a publication that may lack a request digest. */
  lemma {:induction false} RejectedReceiptNeedsMaintainer<T>(existing: Existing<T>, expected: T, args: seq<string>,
                                                             argsDigest: string,
                                          lineage: string, pending: Option<string>)
    requires Inspect(existing, expected).None? && ValidLineage(lineage) && ValidDigest(argsDigest)
    requires pending.Some? ==> ValidDigest(pending.value)
    ensures existing != Nothing && existing != Receipt(expected)
    ensures var e := RejectedReceipt(lineage, pending);
            var f := Classify(Finalize, args, argsDigest, e);
            ProducedError(Finalize, args, argsDigest, e) && Valid(f) &&
            f.outcome == Committed && f.replay == ManualActionRequired && f.next == MaintainerAction && !f.retrySafe
  {
    hide Parsed, ValidLineage, ValidDigest, MetadataOf, SafeLineage, Valid;
    var e := RejectedReceipt(lineage, pending);
    assert [ImmutableConflict][0].ImmutableConflict?;
    EnvelopeValidIff(Finalize, args, argsDigest, e);
  }
}
