/**
 What acceptance guarantees: whatever built it, a transition that both validators accept carries exactly what
 it says, for exactly the status it is published with.
 */
module TransitionAcceptance {
  import opened Wrappers
  import opened ReviewText
  import opened TextLines
  import opened TransitionTypes
  import opened TransitionValidator
  import opened TransitionAgreement
  import NextTransition
  import AuthorizationText

  // ----- arguments by name -----

  predicate Named(args: seq<Argument>, n: Name) {
    exists i :: 0 <= i < |args| && args[i].name == n
  }

  lemma LookupIffNamed(args: seq<Argument>, n: Name)
    requires Distinct(args)
    ensures Lookup(args, n).Some? <==> Named(args, n)
  {
    if Named(args, n) {
      var i :| 0 <= i < |args| && args[i].name == n;
      LookupGiven(args, args[i]);
    } else {
      LookupAbsent(args, n);
    }
  }

  function NamesOf(args: seq<Argument>): set<Name> {
    set i | 0 <= i < |args| :: args[i].name
  }

  lemma {:induction false} DistinctNamesCount(args: seq<Argument>)
    requires Distinct(args)
    ensures |NamesOf(args)| == |args|
  {
    if args == [] {
      assert NamesOf(args) == {};
    } else {
      var init, last := args[..|args| - 1], args[|args| - 1];
      assert NamesOf(args) == NamesOf(init) + {last.name};
      DistinctNamesCount(init);
    }
  }

  lemma SameSize(a: set<Name>, b: set<Name>)
    requires a <= b && |a| == |b|
    ensures a == b
  {
    assert |b - a| == |b| - |a|;
  }

  // As many arguments as names that are all there: there are no others.
  lemma NoOtherNames(args: seq<Argument>, names: set<Name>)
    requires Distinct(args) && |args| == |names| && forall n :: n in names ==> Lookup(args, n).Some?
    ensures forall n :: Lookup(args, n).Some? <==> n in names
  {
    hide Lookup;
    forall n ensures Lookup(args, n).Some? <==> n in NamesOf(args) { LookupIffNamed(args, n); }
    DistinctNamesCount(args);
    SameSize(names, NamesOf(args));
  }

  // ----- inputs -----

  const CAPTURE_NAMES: set<Name> := {Lineage, ExpectedRevision, Target, RepositoryContext, Lens, Order}

  /** An accepted request for a reviewer result is for exactly one lens of one frozen target: its arguments are
      those of the subject and the opaque repository handle, and the diff and the manifest are the subject's. */
  lemma {:induction false} AcceptedCapture(i: Input)
    requires ValidInput(i) && i.capture == CaptureResult
    ensures i.frozen.Some?
    ensures var args, f := i.arguments, i.frozen.value;
            var of := f.subject;
            && Lookup(args, Lineage) == Some(Text(of.lineage)) && Lookup(args, ExpectedRevision) == Some(Text(of.revision))
            && Lookup(args, Target) == Some(Text(of.target)) && Lookup(args, Lens) == Some(Text(of.lens))
            && Lookup(args, Order) == Some(Position(of.order)) && ValidHandle(TextOf(args, RepositoryContext))
            && (forall n :: Lookup(args, n).Some? <==> n in CAPTURE_NAMES)
            && SupportedLens(of.lens) && ValidLineage(of.lineage) && ValidDigest(of.revision) && ValidDigest(of.target)
            && f.diff == of.diff && f.manifest == of.manifest
  {
    hide Lookup, ValidLineage, ValidDigest, ValidHandle, SupportedLens, Distinct, Nonblank, BlankText;
    var of := i.frozen.value.subject;
    IdentitiesAreNotBlank(of.lineage);
    IdentitiesAreNotBlank(of.revision);
    IdentitiesAreNotBlank(of.target);
    IdentitiesAreNotBlank(of.lens);
    IdentitiesAreNotBlank(TextOf(i.arguments, RepositoryContext));
    assert |CAPTURE_NAMES| == 6;
    NoOtherNames(i.arguments, CAPTURE_NAMES);
  }

  /** Of any accepted input: it says something, says nothing twice, and nothing blank; frozen material comes with a
      reviewer result alone, and a validation request with a targeted validation alone, for just its correction. */
  lemma {:induction false} AcceptedInput(i: Input)
    requires ValidInput(i)
    ensures i.arguments != [] && Distinct(i.arguments)
    ensures forall k :: 0 <= k < |i.arguments| ==> !Blank(i.arguments[k].value)
    ensures i.schema.Given? ==> !BlankText(i.schema.schema)
    ensures i.frozen.Some? <==> i.capture == CaptureResult
    ensures i.validation.Some? <==> i.capture == RunTargetedValidation
    ensures i.validation.Some? ==>
              var v := i.validation.value;
              && v.wellFormed && i.schema == Fixed(TargetedValidation)
              && TextOf(i.arguments, Lineage) == v.lineage && TextOf(i.arguments, ExpectedRevision) == v.revision
              && TextOf(i.arguments, Target) == v.correctionTarget
  {
    hide Lookup, ValidLineage, ValidDigest, ValidHandle, SupportedLens, Distinct, BlankText, ValidSubject;
  }

  // ----- executions -----

  /** Of any accepted execution: it has a target, preconditions, and but for a fresh start an authority; and says
      nothing twice, and nothing blank. */
  lemma AcceptedExecution(e: Execution)
    requires ValidExecution(e)
    ensures e.preconditions != [] && ValidDigest(e.binding.target)
    ensures e.operation == ReviewStart || (!BlankText(e.binding.lineage) && ValidDigest(e.binding.revision))
    ensures e.binding.context == "" || ValidHandle(e.binding.context)
    ensures Distinct(e.arguments)
    ensures forall k :: 0 <= k < |e.arguments| ==> !Blank(e.arguments[k].value)
    ensures forall k :: 0 <= k < |e.preconditions| ==> !Blank(e.preconditions[k].value)
  {
    hide ValidValidateExecution, ValidRecoverExecution, ValidDigest, ValidHandle, BlankText, Distinct;
  }

  // Never more than one word, and never taken for a flag or a path from the root.
  predicate OneWord(s: string) {
    s != "" && s[0] != '-' && s[0] != '/' && forall i :: 0 <= i < |s| ==> !Space(s[i])
  }

  lemma SelectorTextIsAWord(s: string)
    requires ValidSelectorText(s)
    ensures OneWord(s)
  {
  }

  lemma HandleIs(s: string)
    requires ValidHandle(s)
    ensures |s| == 70 && s[..6] == "rctx1_" && forall i :: 6 <= i < 70 ==> LowerHex(s[i])
  {
  }

  predicate NoRepeats(names: seq<Name>) {
    forall i, j :: 0 <= i < j < |names| ==> names[i] != names[j]
  }

  function Elements(names: seq<Name>): set<Name> {
    set n | n in names
  }

  // Those of the names that the arguments have.
  function Present(args: seq<Argument>, names: seq<Name>): set<Name> {
    set n | n in names && Lookup(args, n).Some?
  }

  lemma {:induction false} NoRepeatsCount(names: seq<Name>)
    requires NoRepeats(names)
    ensures |Elements(names)| == |names|
  {
    if names != [] {
      var init, last := names[..|names| - 1], names[|names| - 1];
      assert Elements(names) == Elements(init) + {last};
      assert last !in init;
      NoRepeatsCount(init);
    }
  }

  lemma PresentStep(args: seq<Argument>, names: seq<Name>)
    requires names != [] && NoRepeats(names)
    ensures NoRepeats(names[1..])
    ensures |Present(args, names)| == |Present(args, names[1..])| + if Lookup(args, names[0]).Some? then 1 else 0
  {
    hide Lookup;
    var first, later := names[0], names[1..];
    assert names == [first] + later;
    assert first !in later;
    if Lookup(args, first).Some? {
      assert Present(args, names) == Present(args, later) + {first};
    } else {
      assert Present(args, names) == Present(args, later);
    }
  }

  // The selectors among the arguments are those that are there, and as many.
  lemma {:induction false} SelectorsAreThere(args: seq<Argument>, names: seq<Name>)
    requires NoRepeats(names)
    ensures |SelectorsIn(args, names)| == |Present(args, names)|
    ensures forall i :: 0 <= i < |SelectorsIn(args, names)| ==>
              var a := SelectorsIn(args, names)[i]; a.name in names && Lookup(args, a.name) == Some(a.value)
  {
    hide Lookup, NoRepeats, Present;
    if names == [] {
      NonePresent(args);
    } else {
      PresentStep(args, names);
      SelectorsAreThere(args, names[1..]);
    }
  }

  lemma NonePresent(args: seq<Argument>)
    ensures Present(args, []) == {}
  {
  }

  // Exactly the required arguments and the selectors that are there.
  lemma {:induction false} ExactNames(args: seq<Argument>, required: seq<Name>, names: seq<Name>)
    requires Distinct(args) && Exact(args, required, SelectorsIn(args, names))
    requires NoRepeats(required) && NoRepeats(names) && forall n :: n in required ==> n !in names
    ensures forall n :: n in required ==> Lookup(args, n).Some?
    ensures forall n :: Lookup(args, n).Some? ==> n in required || n in names
  {
    hide Lookup, Distinct, NoRepeats, SelectorsIn;
    SelectorsAreThere(args, names);
    NoRepeatsCount(required);
    var there, must := Present(args, names), Elements(required);
    assert must !! there;
    assert |must + there| == |must| + |there|;
    forall n | n in required ensures Lookup(args, n).Some? {
      var i :| 0 <= i < |required| && required[i] == n;
      assert HasName(args, required[i]);
    }
    NoOtherNames(args, must + there);
  }

  /** An accepted validation names the lineage it is bound to and a gate, before a pull request perhaps a base of
      one word, and nothing else; the selectors it shows are that base. */
  lemma {:induction false} AcceptedValidate(e: Execution)
    requires ValidExecution(e) && e.operation == ReviewValidate
    ensures var args := e.arguments;
            && Lookup(args, Lineage) == Some(Text(e.binding.lineage))
            && (exists gate :: gate != UnknownGate && Lookup(args, GateName) == Some(OfGate(gate)))
            && (Lookup(args, BaseRef).Some? ==>
                  Lookup(args, GateName) == Some(OfGate(PrePR)) && OneWord(TextOf(args, BaseRef)))
            && (forall n :: Lookup(args, n).Some? ==> n == Lineage || n == GateName || n == BaseRef)
            && (e.selectors.Some? ==>
                  e.selectors.value ==
                  match Lookup(args, BaseRef) case Some(v) => [Argument(BaseRef, v)] case None => [])
  {
    hide Lookup, Distinct, ValidDigest, ValidHandle, BlankText, ValidRecoverExecution, OneWord, ValidSelectorText;
    ExactNames(e.arguments, VALIDATE_REQUIRED, [BaseRef]);
    assert Lookup(e.arguments, GateName).Some?;
    if Lookup(e.arguments, BaseRef).Some? { SelectorTextIsAWord(TextOf(e.arguments, BaseRef)); }
  }

  /** An accepted recovery names the authority it is bound to, a proper successor other than it, and one of the
      three ways to recover; it carries the text for exactly this recovery; its flags go together; and it has
      no other arguments. */
  lemma {:induction false} AcceptedRecover(e: Execution)
    requires ValidExecution(e) && e.operation == ReviewRecover
    ensures var args := e.arguments;
            && Lookup(args, PredecessorLineage) == Some(Text(e.binding.lineage))
            && Lookup(args, ExpectedPredecessorRevision) == Some(Text(e.binding.revision))
            && ValidLineage(TextOf(args, SuccessorLineage)) && TextOf(args, SuccessorLineage) != e.binding.lineage
            && (|| Lookup(args, Disposition) == Some(OfRecovery(ScopeChanged))
                || Lookup(args, Disposition) == Some(OfRecovery(InvalidatedRecovery))
                || Lookup(args, Disposition) == Some(OfRecovery(EscalatedRecovery)))
            && Lookup(args, Actor).Some? && Lookup(args, Reason).Some?
            && Lookup(args, MaintainerAuthorization) ==
               Some(Text(AuthorizationText.Authorization(e.binding.lineage, e.binding.revision, e.binding.target,
                                                         if e.selectors.Some? then TextOf(args, SuccessorLineage) else "",
                                                         TextOf(args, Actor), TextOf(args, Reason))))
            && (forall n :: Lookup(args, n).Some? ==> n in RECOVER_REQUIRED || n in RECOVER_SELECTORS)
  {
    hide Lookup, Distinct, ValidDigest, ValidHandle, BlankText, ValidValidateExecution, ValidLineage, ValidRecoverSelectors,
         AuthorizationText.Authorization;
    ExactNames(e.arguments, RECOVER_REQUIRED, RECOVER_SELECTORS);
    assert Actor in RECOVER_REQUIRED && Reason in RECOVER_REQUIRED;
  }

  /** Its flags go together, and the selectors it shows are those among the arguments. */
  lemma {:induction false} AcceptedRecoverFlags(e: Execution)
    requires ValidExecution(e) && e.operation == ReviewRecover
    ensures var args := e.arguments;
            && (Lookup(args, BaseRef).Some? ==> OneWord(TextOf(args, BaseRef)))
            && (Lookup(args, CommittedOnly).Some? ==> Lookup(args, CommittedOnly) == Some(Yes) && Lookup(args, BaseRef).Some?)
            && (Lookup(args, ProjectionName).Some? ==>
                  exists p :: Lookup(args, ProjectionName) == Some(OfProjection(p)))
            && (Lookup(args, Overlay).Some? ==>
                  && Lookup(args, Overlay) == Some(Yes) && Lookup(args, BaseRef).Some? && Lookup(args, CommittedOnly).None?
                  && Lookup(args, ProjectionName) == Some(OfProjection(Staged)))
            && (e.selectors.Some? ==>
                  |e.selectors.value| == |Present(args, RECOVER_SELECTORS)| &&
                  forall i :: 0 <= i < |e.selectors.value| ==>
                    e.selectors.value[i].name in RECOVER_SELECTORS &&
                    Lookup(args, e.selectors.value[i].name) == Some(e.selectors.value[i].value))
  {
    hide Lookup, Distinct, ValidDigest, ValidHandle, BlankText, ValidValidateExecution, ValidLineage, OneWord, ValidSelectorText,
         AuthorizationText.Authorization;
    var args := e.arguments;
    SelectorsAreThere(args, RECOVER_SELECTORS);
    if Lookup(args, BaseRef).Some? { SelectorTextIsAWord(TextOf(args, BaseRef)); }
    if Lookup(args, ProjectionName).Some? {
      assert Lookup(args, ProjectionName) == Some(OfProjection(Lookup(args, ProjectionName).value.projection));
    }
  }

  lemma IdentitiesAreOneLine(s: string)
    requires ValidDigest(s) || ValidLineage(s)
    ensures OneLine(s)
  {
  }

  /** A maintainer's text authorizes one recovery. Two accepted recoveries that show their selectors and carry the
      same text recover the same revision of the same authority, over the same target, into the same successor. */
  lemma {:induction false} AuthorizationIsForOneRecovery(e: Execution, e': Execution)
    requires ValidExecution(e) && e.operation == ReviewRecover && e.selectors.Some? && ValidLineage(e.binding.lineage)
    requires ValidExecution(e') && e'.operation == ReviewRecover && e'.selectors.Some? && ValidLineage(e'.binding.lineage)
    requires Lookup(e.arguments, MaintainerAuthorization) == Lookup(e'.arguments, MaintainerAuthorization)
    ensures e.binding.lineage == e'.binding.lineage && e.binding.revision == e'.binding.revision
    ensures e.binding.target == e'.binding.target
    ensures Lookup(e.arguments, SuccessorLineage) == Lookup(e'.arguments, SuccessorLineage)
  {
    hide Lookup, Distinct, ValidDigest, ValidHandle, BlankText, ValidValidateExecution, ValidRecoverExecution, ValidLineage,
         AuthorizationText.Authorization, OneLine;
    AcceptedRecover(e);
    AcceptedRecover(e');
    var s, s' := TextOf(e.arguments, SuccessorLineage), TextOf(e'.arguments, SuccessorLineage);
    IdentitiesAreOneLine(e.binding.lineage);
    IdentitiesAreOneLine(e'.binding.lineage);
    IdentitiesAreOneLine(e.binding.revision);
    IdentitiesAreOneLine(e'.binding.revision);
    IdentitiesAreOneLine(e.binding.target);
    IdentitiesAreOneLine(e'.binding.target);
    IdentitiesAreOneLine(s);
    IdentitiesAreOneLine(s');
    AuthorizationText.BindingIsUnambiguous(
      e.binding.lineage, e.binding.revision, e.binding.target, s, TextOf(e.arguments, Actor), TextOf(e.arguments, Reason),
      e'.binding.lineage, e'.binding.revision, e'.binding.target, s', TextOf(e'.arguments, Actor), TextOf(e'.arguments, Reason));
    IdentitiesAreNotBlank(s);
  }

  // ----- for the status -----

  /** For an unrelated target only a fresh review of it is accepted, or the stop for a staged overlay. */
  lemma {:induction false} AcceptedUnrelated(s: Status, t: Transition)
    requires Fits(s, t) && s.applicability == Unrelated
    ensures s.action == StopAction ==> t == Stop(StagedOverlayUnavailable)
    ensures s.action != StopAction ==>
              && t.Execute? && t.reason == FreshTargetReady && t.execution.operation == ReviewStart
              && s.projection.kind != OtherKind && t.execution.artifacts == []
              && t.execution.preconditions == [Argument(TargetIdentity, Text(s.targetIdentity))]
              && t.execution.binding.target == s.targetIdentity && t.execution.binding.revision == ""
              && t.execution.binding.context == "" && Distinct(t.execution.arguments)
              && (t.execution.binding.lineage != "" ==> ValidLineage(t.execution.binding.lineage))
              && TextOf(t.execution.arguments, Lineage) == t.execution.binding.lineage
              && t.execution.arguments == NextTransition.StartArguments(s, t.execution.binding.lineage)
  {
    hide Distinct, Lookup, ValidLineage, NextTransition.StartArguments;
  }

  /** For any other the operation is bound to the target: the authority's own while it validates, else the live one.
      A validation names a base only for a target that has one, and then before a pull request always. */
  lemma {:induction false} AcceptedTarget(s: Status, t: Transition)
    requires Fits(s, t) && s.applicability != Unrelated && t.Execute?
    ensures t.execution.binding.target ==
            if s.authority.Some? && s.authority.value.state == Validating && s.authorityTarget != "" then s.authorityTarget
            else s.targetIdentity
    ensures t.execution.operation == ReviewValidate ==>
              var base := Lookup(t.execution.arguments, BaseRef).Some?;
              && (base ==> s.projection.kind != CurrentChanges)
              && (Lookup(t.execution.arguments, GateName) == Some(OfGate(PrePR)) && s.projection.kind == BaseDiff ==> base)
    ensures t.execution.operation == ReviewValidate || t.execution.operation == ReviewRecover ==>
              && Distinct(t.execution.arguments)
              && match t.execution.selectors
                 case Some(shown) =>
                   forall i :: 0 <= i < |shown| ==> Lookup(t.execution.arguments, shown[i].name) == Some(shown[i].value)
                 case None => forall n :: n in RECOVER_SELECTORS ==> Lookup(t.execution.arguments, n).None?
  {
    hide Distinct, Lookup, RecoverFits, RepairFits, RetryFits, InputFits;
  }

  /** The flags of an accepted recovery select the target the status is of: its kind, its base and, when it is said,
      its projection, which a staged overlay always says. */
  lemma {:induction false} AcceptedRecoverTarget(s: Status, t: Transition)
    requires Fits(s, t) && s.applicability != Unrelated && t.Execute? && t.execution.operation == ReviewRecover
    ensures var args := t.execution.arguments;
            && s.projection.kind != OtherKind
            && (Lookup(args, BaseRef).Some? <==> s.projection.kind != CurrentChanges)
            && (Lookup(args, BaseRef).Some? ==> TextOf(args, BaseRef) != "")
            && (Lookup(args, CommittedOnly).Some? <==> s.projection.kind == BaseDiff)
            && (Lookup(args, Overlay).Some? <==> s.projection.kind == WorkspaceOverlay && s.projection.projection == Staged)
            && (Lookup(args, Overlay).Some? ==> Lookup(args, Overlay) == Some(Yes))
            && (Lookup(args, Overlay).Some? ==> Lookup(args, ProjectionName).Some?)
            && (Lookup(args, ProjectionName).Some? ==>
                  Lookup(args, ProjectionName) == Some(OfProjection(s.projection.projection)))
  {
    hide Distinct, Lookup, ValidateFits, RepairFits, RetryFits, InputFits;
  }

  /** Reviewer results are collected for the frozen initial target and its paths, evidence for the authority's own. */
  lemma {:induction false} AcceptedFor(s: Status, t: Transition)
    requires Fits(s, t) && s.applicability != Unrelated && t.Collect?
    ensures forall i :: i in t.inputs && i.capture == CaptureResult ==>
              && TextOf(i.arguments, Target) == s.projection.initialIdentity && Distinct(i.arguments) && i.frozen.Some?
              && i.frozen.value.subject.target == s.projection.initialIdentity
              && i.frozen.value.manifest == s.projection.paths
    ensures forall i :: i in t.inputs && i.capture == CaptureEvidence ==>
              && Distinct(i.arguments)
              && TextOf(i.arguments, Target) == if s.authorityTarget != "" then s.authorityTarget else s.targetIdentity
  {
    hide Distinct, Lookup, RepairFits, RetryFits;
  }

  const REPAIR_NAMES: set<Name> := {Class, Lineage, ExpectedRevision, Cause, Disposition, RepositoryBinding}

  // What names the one repair that was assessed.
  predicate NamesRepair(args: seq<Argument>, s: Status)
    requires s.repair.candidate.Some?
  {
    var p, c := s.repair, s.repair.candidate.value;
    && TextIs(args, Class, p.repairClass) && TextIs(args, Lineage, c.lineage) && TextIs(args, ExpectedRevision, c.revision)
    && TextIs(args, Cause, p.cause) && TextIs(args, Disposition, p.disposition) && TextIs(args, RepositoryBinding, p.binding)
  }

  predicate TextIs(args: seq<Argument>, n: Name, text: string) {
    Lookup(args, n) == Some(Text(text))
  }

  /** With a repair assessed it is asked for, with exactly its own six fields, or run, and nothing else. */
  lemma {:induction false} AcceptedRepairRequest(s: Status, t: Transition)
    requires Fits(s, t) && s.applicability != Unrelated && s.repair.candidate.Some?
    ensures !t.Stop?
    ensures t.Collect? ==>
              && t.reason == RepairAuthorizationRequired && |t.inputs| == 1
              && t.inputs[0].name == RepairAuthorizationInput && t.inputs[0].capture == AuthorizeRepair
              && t.inputs[0].schema == Given(s.repair.schema) && NamesRepair(t.inputs[0].arguments, s)
              && forall n :: Lookup(t.inputs[0].arguments, n).Some? <==> n in REPAIR_NAMES
  {
    hide Distinct, Lookup, ValidateFits, RecoverFits, RetryFits, InputFits, BlankText;
    assert |REPAIR_NAMES| == 6;
    if t.Collect? { NoOtherNames(t.inputs[0].arguments, REPAIR_NAMES); }
  }

  /** It runs with these fields, the people and the authorization, on the authority that was assessed. */
  lemma {:induction false} AcceptedRepair(s: Status, t: Transition)
    requires Fits(s, t) && s.applicability != Unrelated && s.repair.candidate.Some? && t.Execute?
    ensures t.reason == RepairAuthorized && t.execution.operation == ReviewRepair
    ensures t.execution.binding.lineage == s.repair.candidate.value.lineage
    ensures t.execution.binding.revision == s.repair.candidate.value.revision
    ensures NamesRepair(t.execution.arguments, s)
    ensures !BlankText(TextOf(t.execution.arguments, Actor)) && !BlankText(TextOf(t.execution.arguments, Reason))
    ensures Lookup(t.execution.arguments, MaintainerAuthorization) == Some(Provided)
    ensures forall n :: Lookup(t.execution.arguments, n).Some? <==>
              n in REPAIR_NAMES || n in {Actor, Reason, MaintainerAuthorization}
  {
    hide Distinct, Lookup, ValidateFits, RecoverFits, RetryFits, InputFits, BlankText, RepairMayProceed;
    BlankIsBlank();
    assert |REPAIR_NAMES + {Actor, Reason, MaintainerAuthorization}| == 9;
    NoOtherNames(t.execution.arguments, REPAIR_NAMES + {Actor, Reason, MaintainerAuthorization});
  }

  lemma BlankIsBlank()
    ensures BlankText("")
  {
  }

  /** And it runs only on the unique, eligible candidate that is still the head. */
  lemma {:induction false} AcceptedRepairProceeds(s: Status, t: Transition)
    requires Fits(s, t) && s.applicability != Unrelated && s.repair.candidate.Some? && t.Execute?
    ensures var pre := t.execution.preconditions;
            && Lookup(pre, RepairStatus) == Some(Eligible) && Lookup(pre, UniqueCandidate) == Some(Yes)
            && TextIs(pre, CurrentHead, s.repair.candidate.value.revision)
            && Lookup(pre, RepairAuthorization) == Some(Provided)
            && forall n :: Lookup(pre, n).Some? <==> n in {RepairStatus, UniqueCandidate, CurrentHead, RepairAuthorization}
  {
    hide Distinct, Lookup, ValidateFits, RecoverFits, RetryFits, InputFits, BlankText, AnswersProvider;
    NoOtherNames(t.execution.preconditions, {RepairStatus, UniqueCandidate, CurrentHead, RepairAuthorization});
  }

  /** With a retry proof nothing is accepted but to ask for its authorization, with exactly the eight fields of the
      authority and the proof. */
  lemma {:induction false} AcceptedRetry(s: Status, t: Transition)
    requires Fits(s, t) && s.applicability != Unrelated && s.retry.Some?
    ensures t.Collect? && t.reason == RetryAuthorizationRequired && |t.inputs| == 1 && s.authority.Some?
    ensures var i, a, p := t.inputs[0], s.authority.value, s.retry.value;
            && i.name == RetryAuthorizationInput && i.capture == AuthorizeVerificationRetry
            && i.schema == Fixed(RetryAuthorizationInput)
            && TextIs(i.arguments, PredecessorLineage, a.lineage) && TextIs(i.arguments, ExpectedPredecessorRevision, a.revision)
            && TextIs(i.arguments, ValidatingRevision, p.validatingRevision) && TextIs(i.arguments, Target, p.target)
            && TextIs(i.arguments, FailedEvidenceHash, p.failedEvidence)
            && TextIs(i.arguments, FinalizeRequestDigest, p.finalizeRequest)
            && TextIs(i.arguments, IncidentSchema, p.incidentSchema) && TextIs(i.arguments, IncidentClass, p.incidentClass)
            && |i.arguments| == 8 && Distinct(i.arguments)
  {
    hide Distinct, Lookup, ValidateFits, RecoverFits, RepairFits, InputFits;
  }
}
