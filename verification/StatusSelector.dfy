/**
 How the status command derives the selector a recovery would carry, and where that falls short of what
 the validator asks for.
 */
module StatusSelector {
  import opened Wrappers
  import opened ReviewText
  import opened TransitionTypes
  import opened NextTransition
  import opened TransitionValidator
  import opened TransitionAgreement

  // The target options of the status command, after its own checks.
  datatype Options = Options(kind: TargetKind, projection: Projection, baseRef: string, baseTree: string, overlay: bool)

  predicate CheckedOptions(o: Options) {
    && (BlankText(o.baseRef) ==> o.baseRef == "") && (o.baseTree != "" ==> ValidGitTree(o.baseTree))
    && match o.kind
       case CurrentChanges => o.baseRef == "" && o.baseTree == "" && !o.overlay
       case BaseDiff => o.baseRef != "" && o.baseTree == "" && !o.overlay
       case WorkspaceOverlay => o.overlay && (o.baseRef == "") != (o.baseTree == "")
       case OtherKind => false
  }

  // What is known of the authority being recovered: its state and its initial snapshot.
  datatype Predecessor = Predecessor(state: State, kind: TargetKind, projection: Projection)

  predicate StagedScopeRecovery(s: Status, o: Options, p: Predecessor) {
    && s.action == RecoverAction && s.recovery == ScopeChanged && p.state == Approved && p.kind == BaseDiff
    && o.kind == WorkspaceOverlay && o.projection == Staged && o.overlay
  }

  function Derive(s: Status, o: Options, predecessor: Option<Predecessor>, prePR: bool): Selector {
    var bare := Selector(o.kind, o.projection, o.baseRef, o.baseTree, o.overlay, false, None, prePR);
    match predecessor
    case None => bare
    case Some(p) =>
      var staged := StagedScopeRecovery(s, o, p);
      var representable := p.kind == o.kind || staged;
      if staged || (representable && s.recovery == InvalidatedRecovery && o.kind == WorkspaceOverlay && o.projection == Staged) then
        bare.(recoveryRepresentable := representable, recoveryProjection := Some(Staged))
      else if representable && p.projection != o.projection then
        bare.(recoveryRepresentable := s.recovery == EscalatedRecovery, recoveryProjection := Some(o.projection))
      else bare.(recoveryRepresentable := representable)
  }

  lemma {:induction false} DerivedSelectorFits(s: Status, o: Options, predecessor: Option<Predecessor>, prePR: bool)
    requires CheckedOptions(o) && o.kind == s.projection.kind && o.projection == s.projection.projection
    ensures SelectorOf(s, Derive(s, o, predecessor, prePR))
  {
    hide ValidGitTree, BlankText;
  }

  /** What is derived: a recovery can be selected again when the target is of the same kind, or a staged
      overlay over the committed base it grew out of; of another projection only from an escalation or as the
      staged overlay of an invalidated review. A projection is said exactly when it has to be, and is the selected one. */
  lemma {:induction false} DerivedIs(s: Status, o: Options, predecessor: Option<Predecessor>, prePR: bool)
    ensures var sel := Derive(s, o, predecessor, prePR);
            var grown := predecessor.Some? && s.action == RecoverAction && s.recovery == ScopeChanged &&
                         predecessor.value.state == Approved && predecessor.value.kind == BaseDiff &&
                         o.kind == WorkspaceOverlay && o.projection == Staged && o.overlay;
            var same := predecessor.Some? && predecessor.value.kind == o.kind;
            var restaged := s.recovery == InvalidatedRecovery && o.kind == WorkspaceOverlay && o.projection == Staged;
            && (sel.recoveryRepresentable <==>
                  grown || (same && (restaged || predecessor.value.projection == o.projection || s.recovery == EscalatedRecovery)))
            && (sel.recoveryProjection.Some? <==>
                  grown || (same && (restaged || predecessor.value.projection != o.projection)))
            && (sel.recoveryProjection.Some? ==> sel.recoveryProjection.value == o.projection)
            && sel.kind == o.kind && sel.projection == o.projection && sel.baseRef == o.baseRef && sel.baseTree == o.baseTree
            && sel.overlay == o.overlay && sel.prePRRepresentable == prePR
  {
  }

  /** The derived selector says that a recovery is of the staged index exactly when the recovery is of an
      invalidated review or a staged scope expansion, or changes the projection. */
  lemma StagedIsSaidIff(s: Status, o: Options, p: Predecessor, prePR: bool)
    requires CheckedOptions(o) && o.kind == WorkspaceOverlay && o.projection == Staged
    requires Derive(s, o, Some(p), prePR).recoveryRepresentable
    ensures StagedOverlayIsSaid(Derive(s, o, Some(p), prePR)) <==>
              StagedScopeRecovery(s, o, p) || s.recovery == InvalidatedRecovery || p.projection != Staged
  {
  }

  lemma CurrentHasAuthority(s: Status)
    requires Assessed(s)
    ensures s.applicability == CurrentTarget <==> s.authority.Some?
  {
  }

  /** So a correction over a staged overlay, whose scope changed or whose validation failed, cannot be
      recovered this way: once the maintainer's authorization is right, the transition the builder makes
      is refused by the validator. */
  lemma StagedCorrectionRecoveryIsRefused(s: Status, lenses: seq<string>, artifacts: Artifacts, evidence: bool,
                                          r: Request, o: Options, prePR: bool)
    requires Assessed(s) && Filled(s, lenses, artifacts, r) && BoundaryChecked(r) && CheckedOptions(o)
    requires o.kind == s.projection.kind && o.projection == s.projection.projection
    requires s.applicability == CurrentTarget && s.authority.Some? && s.authority.value.state == CorrectionRequired && s.action == RecoverAction
    requires s.recovery == ScopeChanged || s.recovery == EscalatedRecovery
    requires o.kind == WorkspaceOverlay && o.projection == Staged
    requires r.selector == Some(Derive(s, o, Some(Predecessor(CorrectionRequired, WorkspaceOverlay, Staged)), prePR))
    requires s.targetIdentity != AuthorityTargetIdentity(s)
    requires RecoveryIsAuthorized(BindingOf(s.authority.value, s.targetIdentity, r.repositoryContext), r)
    ensures Build(s, lenses, artifacts, evidence, r).reason == RecoveryAuthorized
    ensures !(Valid(Build(s, lenses, artifacts, evidence, r)) && Fits(s, Build(s, lenses, artifacts, evidence, r)))
  {
    hide ValidDigest, ValidLineage, ValidGitTree, ValidHandle, CaptureOf, BlankText, Valid, Fits, RecoveryIsAuthorized, Filled,
         RecoverExecution, SelectorOf, Build, Assessed;
    var p := Predecessor(CorrectionRequired, WorkspaceOverlay, Staged);
    StagedIsSaidIff(s, o, p, prePR);
    DerivedSelectorFits(s, o, Some(p), prePR);
    CurrentHasAuthority(s);
    assert RecoverySelectors(r.selector.value).Some?;
    assert SignsRecovery(s, r) && !RecoveryIsSpellable(s, r);
    BuilderMeetsValidators(s, lenses, artifacts, evidence, r);
    DecisionsAre(s, lenses, artifacts, evidence, r);
  }
}
