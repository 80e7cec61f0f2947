/**
 What each error is reported as: every part of the envelope, by the cause that decides and its fields.
 */
module FailureAnswers {
  import opened Wrappers
  import opened ReviewText
  import opened ReviewArguments
  import opened FailureEnvelope

  // The cause that decides; an error without any says nothing.
  function CauseOf(e: Error): Cause {
    if Decisive(e).Some? then Decisive(e).value else Opaque
  }

  // The whole operation ran out of its time.
  predicate RanOut(c: Cause) {
    c.DeadlineExceeded? || (c.GitTimeout? && c.aggregate)
  }

  predicate Explains(c: Cause) {
    !c.Cancelled? && !c.ImmutableConflict? && !c.Opaque?
  }

  predicate OnlyReads(op: Operation) {
    op.Capabilities? || op.Status? || op.Validate?
  }

  // A preflight of a repair was asked for, in well formed arguments.
  predicate AsksForPreflight(op: Operation, args: seq<string>) {
    && op.Repair? && Parsed(op, args).Some? && "preflight" in Parsed(op, args).value
    && ParsesTrue(Parsed(op, args).value["preflight"])
  }

  // What the table of operations says of them.
  lemma OperationsAre(op: Operation, args: seq<string>)
    ensures MetadataOf(op).mutates <==> !OnlyReads(op)
    ensures MetadataOf(op).joinOnTimeout <==> op.BindSDD? || op.Repair? || op.RetryFinalVerification?
    ensures MetadataOf(op).timeoutRetryable <==> op.BindSDD?
    ensures MayMutate(op, args) <==> !OnlyReads(op) && !AsksForPreflight(op, args)
  {
    hide Parsed, ParsesTrue;
  }

  // ----- which cause decides -----

  predicate Occurs(e: Error, kind: Cause -> bool) {
    exists i :: 0 <= i < |e| && kind(e[i])
  }

  /** The kinds in their order: denials and conflicts first, then what says that something was committed or
      begun, then Git and time, then what was wrong with the request. */
  lemma {:induction false} KindsDecideInOrder(e: Error)
    ensures var c := CauseOf(e);
            if Occurs(e, (x: Cause) => x.RetryDenied?) then c.RetryDenied?
            else if Occurs(e, (x: Cause) => x.BindingConflict?) then c.BindingConflict?
            else if Occurs(e, (x: Cause) => x.ReplayMismatch?) then c.ReplayMismatch?
            else if Occurs(e, (x: Cause) => x.Publication?) then c.Publication?
            else if Occurs(e, (x: Cause) => x.BindingPublication?) then c.BindingPublication?
            else if Occurs(e, (x: Cause) => x.StartContext?) then c.StartContext?
            else if Occurs(e, (x: Cause) => x.Progress?) then c.Progress?
            else if Occurs(e, (x: Cause) => x.RepairProgress?) then c.RepairProgress?
            else if Occurs(e, (x: Cause) => x.GitTimeout?) then c.GitTimeout?
            else if Occurs(e, (x: Cause) => x.GitFailure?) then c.GitFailure?
            else if Occurs(e, (x: Cause) => x.GitControl?) then c.GitControl?
            else if Occurs(e, (x: Cause) => x.DeadlineExceeded?) then c.DeadlineExceeded?
            else if Occurs(e, (x: Cause) => x.PreflightFailed?) then c.PreflightFailed?
            else if Occurs(e, (x: Cause) => x.LegacyReadOnly?) then c.LegacyReadOnly?
            else if Occurs(e, (x: Cause) => x.LockTimeout?) then c.LockTimeout?
            else if Occurs(e, (x: Cause) => x.LockCancelled?) then c.LockCancelled?
            else if Occurs(e, (x: Cause) => x.TargetResolution?) then c.TargetResolution?
            else if Occurs(e, (x: Cause) => x.GateDenied?) then c.GateDenied?
            else if Occurs(e, (x: Cause) => x.Discovery?) then c.Discovery?
            else !Explains(c)
  {
    var c := CauseOf(e);
    assert forall i :: 0 <= i < |e| ==> e[i] in e;
    if e != [] {
      var i :| 0 <= i < |e| && e[i] == c;
    }
  }

  /** Of the causes of one kind the outermost decides. */
  lemma {:induction false} OutermostDecides(e: Error)
    requires e != []
    ensures exists i :: 0 <= i < |e| && e[i] == CauseOf(e) && forall j :: 0 <= j < i ==> Rank(e[j]) != Rank(e[i])
  {
    if |e| > 1 { OutermostDecides(e[1..]); }
    if CauseOf(e) != e[0] || Rank(CauseOf(e)) != Rank(e[0]) {
      var rest := e[1..];
      var i :| 0 <= i < |rest| && rest[i] == CauseOf(rest) && forall j :: 0 <= j < i ==> Rank(rest[j]) != Rank(rest[i]);
      assert e[i + 1] == CauseOf(e);
      assert forall j :: 1 <= j < i + 1 ==> e[j] == rest[j - 1];
    }
  }

  // ----- what is reported -----

  lemma CauseDecides(op: Operation, args: seq<string>, argsDigest: string, e: Error)
    ensures Classify(op, args, argsDigest, e) == EnvelopeOf(UnknownFailure(op, args), op, args, argsDigest, e, CauseOf(e))
  {
    hide UnknownFailure, UnexplainedFailure;
  }

  /** What is said of the mutation. Committed: a receipt or a binding that waits for its publication, and a repair
      whose record says so. Unknown: everything that may have happened in between. */
  lemma {:induction false} OutcomeIs(op: Operation, args: seq<string>, argsDigest: string, e: Error)
    ensures var c, f := CauseOf(e), Classify(op, args, argsDigest, e);
            && (f.outcome == Committed <==> c.Publication? || c.BindingPublication? || (c.RepairProgress? && c.committed))
            && (f.outcome == Unknown <==>
                  || c.ReplayMismatch? || c.Progress? || (c.StartContext? && c.selected)
                  || (c.RepairProgress? && !c.committed)
                  || (RanOut(c) && !op.BindSDD? && !OnlyReads(op) && !AsksForPreflight(op, args))
                  || (!Explains(c) && !OnlyReads(op)))
            && (f.outcome == NotStarted <==>
                  || c.RetryDenied? || c.BindingConflict? || (c.StartContext? && !c.selected)
                  || (c.GitTimeout? && !c.aggregate) || c.GitFailure? || c.GitControl?
                  || (RanOut(c) && (op.BindSDD? || OnlyReads(op) || AsksForPreflight(op, args)))
                  || c.PreflightFailed? || c.LegacyReadOnly? || c.LockTimeout? || c.LockCancelled? || c.TargetResolution?
                  || c.GateDenied? || c.Discovery?
                  || (!Explains(c) && OnlyReads(op)))
  {
    hide CauseOf, Classify, MetadataOf, MayMutate, AsksForPreflight, SafeLineage, TimesOut, GitFails, ControlText, Expires,
         IsCancelled;
    CauseDecides(op, args, argsDigest, e);
    OperationsAre(op, args);
  }

  predicate RetryIsOffered(op: Operation, c: Cause) {
    || c.BindingConflict? || c.BindingPublication? || (c.RepairProgress? && c.exact)
    || (RanOut(c) && op.BindSDD?)
    || c.PreflightFailed? || c.LockTimeout? || c.TargetResolution?
    || (c.GateDenied? && !(c.result.ScopeChanged? && c.scope.Some?))
    || (!Explains(c) && OnlyReads(op))
  }

  predicate StatusIsAskedFor(op: Operation, args: seq<string>, c: Cause) {
    || c.ReplayMismatch? || c.Progress? || (c.StartContext? && c.selected) || (c.RepairProgress? && !c.exact)
    || (RanOut(c) && !op.BindSDD? && !OnlyReads(op) && !AsksForPreflight(op, args))
    || (!Explains(c) && !OnlyReads(op))
  }

  /** What may be repeated, and how. */
  lemma {:induction false} ReplayIs(op: Operation, args: seq<string>, argsDigest: string, e: Error)
    ensures var c, f := CauseOf(e), Classify(op, args, argsDigest, e);
            && (f.retrySafe <==> RetryIsOffered(op, c))
            && (f.replay == ExactReplaySafe <==>
                  (c.Publication? && !c.manual) || c.BindingPublication? || (c.RepairProgress? && c.exact))
            && (f.replay == StatusRequired <==> StatusIsAskedFor(op, args, c))
            && (f.replay == NotReplayable <==>
                  || c.BindingConflict? || (RanOut(c) && op.BindSDD?) || c.PreflightFailed? || c.LegacyReadOnly?
                  || c.TargetResolution? || (!Explains(c) && OnlyReads(op)))
  {
    hide CauseOf, Classify, MetadataOf, MayMutate, AsksForPreflight, SafeLineage, TimesOut, GitFails, ControlText, Expires,
         IsCancelled;
    CauseDecides(op, args, argsDigest, e);
    OperationsAre(op, args);
  }

  /** What to do next: the command to run, or, in the next lemma, whom to ask. In every other case: stop. */
  lemma {:induction false} NextIs(op: Operation, args: seq<string>, argsDigest: string, e: Error)
    ensures var c, f := CauseOf(e), Classify(op, args, argsDigest, e);
            && (f.next == ReviewFinalize <==> c.Publication? && !c.manual)
            && (f.next == ReviewBindSDD <==> c.BindingConflict? || c.BindingPublication?)
            && (f.next == ReviewRepair <==> c.RepairProgress? && c.exact)
            && (f.next == ReviewStatus <==> StatusIsAskedFor(op, args, c) || (c.Discovery? && c.kind.Ambiguous?))
  {
    hide CauseOf, Classify, MetadataOf, MayMutate, AsksForPreflight, SafeLineage, TimesOut, GitFails, ControlText, Expires,
         IsCancelled;
    CauseDecides(op, args, argsDigest, e);
    OperationsAre(op, args);
  }

  lemma {:induction false} NextForPeopleIs(op: Operation, args: seq<string>, argsDigest: string, e: Error)
    ensures var c, f := CauseOf(e), Classify(op, args, argsDigest, e);
            && (f.next == MaintainerAction <==>
                  || (c.Publication? && c.manual) || (c.GateDenied? && (c.result.ScopeChanged? || c.result.Invalidated?))
                  || (c.Discovery? && c.kind.TargetScopeChanged?))
            && (f.next == Proceed <==> c.GateDenied? && c.result.Allow?)
            && (f.next == RetryNow <==> (RanOut(c) && op.BindSDD?) || (!Explains(c) && OnlyReads(op)))
            && (f.next == RetryWithBackoff <==> c.LockTimeout?)
            && (f.next == CorrectRequest <==> c.PreflightFailed? || c.TargetResolution?)
  {
    hide CauseOf, Classify, MetadataOf, MayMutate, AsksForPreflight, SafeLineage, TimesOut, GitFails, ControlText, Expires,
         IsCancelled;
    CauseDecides(op, args, argsDigest, e);
    OperationsAre(op, args);
  }

  /** How far the operation is said to have come. In every other case: before anything native. */
  lemma {:induction false} PhaseIs(op: Operation, args: seq<string>, argsDigest: string, e: Error)
    ensures var c, f := CauseOf(e), Classify(op, args, argsDigest, e);
            && (f.phase == NativeCommitted <==>
                  || c.Publication? || c.BindingPublication? || (c.StartContext? && c.selected) || c.Progress?
                  || (c.RepairProgress? && c.committed))
            && (f.phase == NativeRunning <==>
                  || (c.RepairProgress? && !c.committed) || c.LegacyReadOnly?
                  || (RanOut(c) && !op.BindSDD? && !OnlyReads(op) && !AsksForPreflight(op, args))
                  || (!Explains(c) && !OnlyReads(op)))
            && (f.phase == Reconciliation <==> c.ReplayMismatch?)
            && (f.phase == Preflight <==> c.PreflightFailed? || c.GateDenied?)
  {
    hide CauseOf, Classify, MetadataOf, MayMutate, AsksForPreflight, SafeLineage, TimesOut, GitFails, ControlText, Expires,
         IsCancelled;
    CauseDecides(op, args, argsDigest, e);
    OperationsAre(op, args);
  }

  /** Which target the report is about. In every other case that was not evaluated. */
  lemma {:induction false} ApplicabilityIs(op: Operation, args: seq<string>, argsDigest: string, e: Error)
    ensures var c, f := CauseOf(e), Classify(op, args, argsDigest, e);
            && (f.applicability == CurrentTarget <==>
                  || c.RetryDenied? || c.BindingConflict? || c.ReplayMismatch? || c.Publication? || c.BindingPublication?
                  || (c.StartContext? && c.selected) || c.Progress? || c.LegacyReadOnly? || c.GateDenied?
                  || (c.Discovery? && c.kind.TargetScopeChanged? && c.scope.Some?))
            && (f.applicability == UnrelatedTarget <==>
                  c.Discovery? && (c.kind.Unrelated? || (c.kind.TargetScopeChanged? && c.scope.None?)))
            && (f.applicability == AmbiguousTarget <==> c.Discovery? && c.kind.Ambiguous?)
            && (f.applicability == CorruptedAuthority <==> c.Discovery? && c.kind.Corrupted?)
  {
    hide CauseOf, Classify, MetadataOf, MayMutate, SafeLineage, TimesOut, GitFails, ControlText, Expires, IsCancelled;
    CauseDecides(op, args, argsDigest, e);
  }

  /** What the report is called. A lock that timed out is never reported as cancelled, or the other way round. */
  lemma {:induction false} CodeIs(op: Operation, args: seq<string>, argsDigest: string, e: Error)
    ensures var c, f := CauseOf(e), Classify(op, args, argsDigest, e);
            && (f.code == RetryWasDenied <==> c.RetryDenied?)
            && (f.code == BindingRevisionConflict <==> c.BindingConflict?)
            && (f.code == RequestMismatch <==> c.ReplayMismatch?)
            && (f.code == ReceiptConflict <==> c.Publication? && c.manual)
            && (f.code == ReceiptPending <==> c.Publication? && !c.manual)
            && (f.code == BindingPending <==> c.BindingPublication?)
            && (f.code == ContextUnavailable <==> c.StartContext?)
            && (f.code == GitTimedOut <==> (c.GitTimeout? && !c.aggregate) || (c.Progress? && TimesOut(e)))
            && (f.code == GitFailed <==>
                  || c.GitFailure? || c.GitControl?
                  || (c.Progress? && !TimesOut(e) && (GitFails(e) || ControlText(e).Some?)))
            && (f.code == OperationTimeout <==>
                  || RanOut(c) || (c.RepairProgress? && (Expires(e) || IsCancelled(e)))
                  || (c.Progress? && !TimesOut(e) && !GitFails(e) && ControlText(e).None? && Expires(e)))
            && (f.code == RepairPending <==> c.RepairProgress? && !Expires(e) && !IsCancelled(e))
  {
    hide CauseOf, Classify, MetadataOf, MayMutate, SafeLineage, TimesOut, GitFails, ControlText, Expires, IsCancelled;
    CauseDecides(op, args, argsDigest, e);
  }

  lemma {:induction false} RequestCodeIs(op: Operation, args: seq<string>, argsDigest: string, e: Error)
    ensures var c, f := CauseOf(e), Classify(op, args, argsDigest, e);
            && (f.code == InvalidRequest <==> c.PreflightFailed?)
            && (f.code == LegacyIsReadOnly <==> c.LegacyReadOnly?)
            && (f.code == LockTimedOut <==> c.LockTimeout?)
            && (f.code == LockWasCancelled <==> c.LockCancelled?)
            && (f.code == TargetUnresolved <==> c.TargetResolution?)
            && (f.code == OperationFailed <==> !Explains(c) && OnlyReads(op))
  {
    hide CauseOf, Classify, MetadataOf, MayMutate, SafeLineage, TimesOut, GitFails, ControlText, Expires, IsCancelled;
    CauseDecides(op, args, argsDigest, e);
  }

  lemma {:induction false} GateCodeIs(op: Operation, args: seq<string>, argsDigest: string, e: Error)
    ensures var c, f := CauseOf(e), Classify(op, args, argsDigest, e);
            && (forall result :: f.code == GateCode(result) <==> c.GateDenied? && c.result == result)
            && (forall kind :: f.code == DiscoveryCode(kind) <==> c.Discovery? && c.kind == kind)
  {
    hide CauseOf, Classify, MetadataOf, MayMutate, SafeLineage, TimesOut, GitFails, ControlText, Expires, IsCancelled;
    CauseDecides(op, args, argsDigest, e);
  }

  /** Which review and which request the report names: those the cause carries, and else the lineage that can
      safely be read from the arguments. */
  lemma {:induction false} NamesAre(op: Operation, args: seq<string>, argsDigest: string, e: Error)
    ensures var c, f := CauseOf(e), Classify(op, args, argsDigest, e);
            && f.operation == op
            && f.lineage == (if c.ReplayMismatch? || c.Publication? || c.StartContext? || c.Progress? || c.RepairProgress?
                             then c.lineage else SafeLineage(op, args))
            && f.digest == (if c.Publication? || c.RepairProgress? then c.digest
                            else if c.BindingPublication? then argsDigest else "")
            && f.identity == (if c.RepairProgress? then c.identity else "")
  {
    hide CauseOf, Classify, MetadataOf, MayMutate, SafeLineage, TimesOut, GitFails, ControlText, Expires, IsCancelled;
    CauseDecides(op, args, argsDigest, e);
  }

  /** What the caller has to give, and what is shown to it. */
  lemma {:induction false} InputsAre(op: Operation, args: seq<string>, argsDigest: string, e: Error)
    ensures var c, f := CauseOf(e), Classify(op, args, argsDigest, e);
            && (c.BindingConflict? || c.BindingPublication? ==> f.required == [Change, LineageId, ExpectedBindingRevision])
            && ((c.ReplayMismatch? || (c.Publication? && !c.manual) || (c.StartContext? && c.selected) || c.RepairProgress? ||
                 (c.Discovery? && c.kind.Ambiguous?)) ==> f.required == [LineageId])
            && (c.TargetResolution? ==> f.required == [BaseRef])
            && (c.GateDenied? && c.result.ScopeChanged? && c.scope.Some? ==> f.required == c.scope.value.required)
            && (c.Discovery? && c.kind.TargetScopeChanged? && c.scope.Some? ==> f.required == c.scope.value.required)
            && (c.BindingConflict? ==> f.context == BindingContext(c.expected, c.current))
            && (f.context.BindingContext? ==> c.BindingConflict?)
            && (forall s :: f.context == ScopeContext(s) <==>
                  || (c.GateDenied? && c.gated && c.scope == Some(s))
                  || (c.Discovery? && c.kind.TargetScopeChanged? && c.scope == Some(s)))
  {
    hide CauseOf, Classify, MetadataOf, MayMutate, SafeLineage, TimesOut, GitFails, ControlText, Expires, IsCancelled;
    CauseDecides(op, args, argsDigest, e);
  }

  // Nothing else asks for anything.
  lemma {:induction false} InputsAreAskedIff(op: Operation, args: seq<string>, argsDigest: string, e: Error)
    requires var c := CauseOf(e);
             c.RetryDenied? || (c.Publication? && c.manual) || (c.StartContext? && !c.selected) || c.Progress? || RanOut(c) ||
             c.GitTimeout? || c.GitFailure? || c.GitControl? || c.PreflightFailed? || c.LegacyReadOnly? || c.LockTimeout? ||
             c.LockCancelled? || (c.GateDenied? && !(c.result.ScopeChanged? && c.scope.Some?)) ||
             (c.Discovery? && !c.kind.Ambiguous? && !(c.kind.TargetScopeChanged? && c.scope.Some?)) || !Explains(c)
    ensures Classify(op, args, argsDigest, e).required == []
  {
    hide CauseOf, Classify, MetadataOf, MayMutate, SafeLineage, TimesOut, GitFails, ControlText, Expires, IsCancelled;
    CauseDecides(op, args, argsDigest, e);
  }

  // ----- what an accepted envelope guarantees -----

  /** Whoever built it: an accepted envelope that does not know the outcome asks for the status, or is a repair's
      own bound replay; and one that offers an exact replay names who, what and how, after something was committed
      or, in a repair, may have been. */
  lemma AcceptedOffer(f: Failure)
    requires Valid(f)
    ensures f.outcome == Unknown ==>
              || (!f.retrySafe && f.replay == StatusRequired && f.next == ReviewStatus)
              || (f.operation.Repair? && f.retrySafe && f.replay == ExactReplaySafe && f.next == ReviewRepair &&
                  f.identity != "")
    ensures f.replay == ExactReplaySafe ==>
              && (f.outcome == Committed || (f.operation.Repair? && f.outcome == Unknown))
              && ValidLineage(f.lineage) && ValidDigest(f.digest)
              && (|| (f.operation.Finalize? && f.required == [LineageId] && f.next == ReviewFinalize)
                  || (f.operation.BindSDD? && f.next == ReviewBindSDD &&
                      f.required == [Change, LineageId, ExpectedBindingRevision])
                  || (f.operation.Repair? && f.required == [LineageId] && f.next == ReviewRepair && ValidDigest(f.identity)))
  {
    hide ValidLineage, ValidDigest, ValidMessage, ValidContext;
  }

  /** What it names is well formed and goes together, its message is one trimmed line of at most 240 characters, and
      what it asks for is known. */
  lemma AcceptedNames(f: Failure)
    requires Valid(f)
    ensures f.lineage == "" || ValidLineage(f.lineage)
    ensures f.digest == "" || (ValidDigest(f.digest) && f.lineage != "")
    ensures f.identity == "" || (ValidDigest(f.identity) && f.digest != "" && f.operation.Repair?)
    ensures f.operation.Repair? && f.digest != "" ==> f.identity != ""
    ensures forall i :: i in f.required ==> !i.Unsupported?
    ensures f.message.Ending? ==>
              var text := f.message.text;
              && text != "" && !Space(text[|text| - 1]) && f.message.prefix + |text| <= 240
              && forall i :: 0 <= i < |text| ==> text[i] != '\n' && text[i] != '\r'
  {
    hide ValidLineage, ValidDigest, ValidContext;
  }

  /** A changed scope is shown only by a validation that reports it, complete and with a way to recover; a binding
      conflict only by a binding that reports it. */
  lemma AcceptedContext(f: Failure)
    requires Valid(f)
    ensures f.context.ScopeContext? ==>
              var s := f.context.scope;
              && f.operation.Validate? && f.code in [GateCode(ScopeChanged), DiscoveryCode(TargetScopeChanged)]
              && s.count <= 1000000 && s.byRecover && f.required == s.required
              && s.required == [PredecessorLineage, ExpectedPredecessorRevision, SuccessorLineage, Disposition, Reason, Actor]
              && ValidLineage(s.lineage) && ValidDigest(s.revision) && ValidDigest(s.pathsDigest)
              && ValidGitTree(s.expected.candidate) && ValidDigest(s.expected.paths)
              && ValidGitTree(s.actual.candidate) && ValidDigest(s.actual.paths)
    ensures f.context.BindingContext? ==>
              && f.operation.BindSDD? && f.code == BindingRevisionConflict && f.next == ReviewBindSDD
              && f.required == [Change, LineageId, ExpectedBindingRevision]
              && (f.context.expected == "" || ValidDigest(f.context.expected))
              && (f.context.current == "" || ValidDigest(f.context.current))
  {
    hide ValidLineage, ValidDigest, ValidGitTree, ValidMessage, ValidIdentity;
  }

  // ----- what is found where the receipt should be -----

  /** A receipt counts as there exactly when it is the expected one, as missing exactly when nothing is there,
      and everything else is a conflict. */
  lemma InspectIs<T>(existing: Existing<T>, expected: T)
    ensures Inspect(existing, expected) == Some(true) <==> existing == Receipt(expected)
    ensures Inspect(existing, expected) == Some(false) <==> existing == Nothing
  {
  }

  /** A publication needs a maintainer exactly when it failed on an immutable conflict. */
  lemma PublicationIs(lineage: string, digest: string, cause: Error)
    ensures PublicationCause(lineage, digest, cause).Publication?
    ensures PublicationCause(lineage, digest, cause).manual <==> ImmutableConflict in cause
    ensures PublicationCause(lineage, digest, cause).lineage == lineage
    ensures PublicationCause(lineage, digest, cause).digest == digest
  {
    if ImmutableConflict in cause {
      var i :| 0 <= i < |cause| && cause[i] == ImmutableConflict;
      assert cause[i].ImmutableConflict?;
    }
  }

  /** A failure names a lineage only when the arguments are well formed and give a valid one: for a retry of the
      final verification its predecessor. */
  lemma {:induction false} SafeLineageIs(op: Operation, args: seq<string>, lineage: string)
    requires lineage != ""
    ensures SafeLineage(op, args) == lineage <==>
              var flag := if op.RetryFinalVerification? then "predecessor-lineage" else "lineage";
              && Parsed(op, args).Some? && flag in Parsed(op, args).value && Parsed(op, args).value[flag] == lineage
              && ValidLineage(lineage)
    ensures SafeLineage(op, args) == lineage ==>
              GivenBy(op, args, if op.RetryFinalVerification? then "predecessor-lineage" else "lineage", lineage)
  {
    hide Parsed, ValidLineage, GivenBy;
    if SafeLineage(op, args) == lineage { ParsedFromArguments(op, args, LineageFlag(op)); }
  }
}
