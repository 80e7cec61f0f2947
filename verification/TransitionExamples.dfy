/**
 Statuses and requests at which the builder and its validators part, one for each way to do so.
 */
module TransitionExamples {
  import opened Wrappers
  import opened ReviewText
  import opened TransitionTypes
  import opened NextTransition
  import opened TransitionValidator
  import opened TransitionAgreement
  import AuthorizationText

  function Digest(c: char): string {
    "sha256:" + seq(64, i => c)
  }

  function GitTree(c: char): string {
    seq(40, i => c)
  }

  function Handle(c: char): string {
    HANDLE_PREFIX + seq(64, i => c)
  }

  lemma {:induction false} IdentitiesAreValid(c: char)
    requires LowerHex(c)
    ensures ValidDigest(Digest(c)) && ValidGitTree(GitTree(c)) && ValidHandle(Handle(c))
  {
    assert Digest(c)[..7] == "sha256:" && |Digest(c)| == 71;
    assert forall i :: 7 <= i < 71 ==> Digest(c)[i] == seq(64, i => c)[i - 7];
    assert Handle(c)[..|HANDLE_PREFIX|] == HANDLE_PREFIX && |Handle(c)| == |HANDLE_PREFIX| + 64;
    assert forall i :: |HANDLE_PREFIX| <= i < |Handle(c)| ==> Handle(c)[i] == seq(64, i => c)[i - |HANDLE_PREFIX|];
  }

  lemma LineagesAreValid()
    ensures ValidLineage("old") && ValidLineage("new") && !ValidLineage("New")
  {
    assert "New"[0] == 'N';
  }

  // A review of what was committed since a base, as it is assessed in each state. Its live target is '1'; the
  // frozen ones are '2'.
  function StatusIn(state: State): Status {
    var receipt := if state == Approved then Present else ExpectedMissing;
    var action := match state case Invalidated => RecoverAction case Approved => ValidateAction case _ => FinalizeAction;
    var recovery := if state == Invalidated then InvalidatedRecovery else NoRecovery;
    var replay := if state == Invalidated then ManualActionRequired else NotReplayable;
    Status(CurrentTarget, Some(Authority(Compact, "old", state, Digest('3'))), receipt, action, recovery,
           replay, false, Digest('1'), Digest('2'),
           TargetProjection(BaseDiff, Workspace, GitTree('4'), GitTree('5'), [], Digest('2')),
           Repair(None, "", "", "", "", ""), [], None)
  }

  function OneLens(): CaptureContext {
    CaptureContext("diff", [], [Subject("old", Digest('3'), Digest('2'), "review-risk", 0, "diff", [])])
  }

  // A base that Git resolves, in several words.
  const DATED_BASE := "HEAD@{1 day ago}"

  function RequestFor(successor: string, reason: string, actor: string, authorization: string, base: string): Request {
    Request(PreCommit, successor, reason, actor, authorization, "", "", "", "", Handle('6'), None, false, Some(OneLens()),
            Some(Selector(BaseDiff, Workspace, base, "", false, true, None, true)))
  }

  // The transition is built for that reason, and refused.
  predicate BuiltAndRefused(state: State, r: Request, reason: ReasonCode) {
    var s := StatusIn(state);
    var t := Build(s, ["review-risk"], Orders([]), false, r);
    && Assessed(s) && Prepared(s, ["review-risk"], Orders([]), r)
    && t.reason == reason && !(Valid(t) && Fits(s, t))
  }

  lemma DigestsDiffer()
    ensures Digest('1') != Digest('2') && Digest('2') != ""
  {
    assert Digest('1')[7] == '1' && Digest('2')[7] == '2';
  }

  lemma StatusIsAssessed(state: State)
    ensures Assessed(StatusIn(state))
  {
    hide ValidDigest, ValidGitTree, ValidHandle, ValidLineage, Digest, GitTree, Handle;
    IdentitiesAreValid('1');
    IdentitiesAreValid('2');
    IdentitiesAreValid('3');
    IdentitiesAreValid('4');
    IdentitiesAreValid('5');
    LineagesAreValid();
  }

  lemma RequestIsPrepared(state: State, successor: string, reason: string, actor: string,
                          authorization: string, base: string)
    requires !BlankText(base)
    ensures Prepared(StatusIn(state), ["review-risk"], Orders([]),
                     RequestFor(successor, reason, actor, authorization, base))
  {
    hide ValidDigest, ValidGitTree, ValidHandle, ValidLineage, Digest, GitTree, Handle;
    IdentitiesAreValid('6');
    assert BlankText("") && base != "";
    assert ["review-risk"][0] == "review-risk";
  }

  // ----- the target moved -----

  /** Reviewer results are asked for while the live target is not the frozen one: the request is built, and
      refused. */
  lemma MovedTargetIsRefused()
    ensures StatusIn(Reviewing).targetIdentity != StatusIn(Reviewing).projection.initialIdentity
    ensures BuiltAndRefused(Reviewing, RequestFor("", "", "", "", "main"), ReviewerResultsRequired)
  {
    hide Assessed, Prepared, Digest, GitTree, Handle, Build, Valid, Fits;
    var s, r := StatusIn(Reviewing), RequestFor("", "", "", "", "main");
    StatusIsAssessed(Reviewing);
    WordsAreNotBlank();
    RequestIsPrepared(Reviewing, "", "", "", "", "main");
    DigestsDiffer();
    assert 0 !in Orders([]).orders && 0 < |["review-risk"]|;
    DecisionsAre(s, ["review-risk"], Orders([]), false, r);
    BuilderMeetsValidators(s, ["review-risk"], Orders([]), false, r);
  }

  lemma WordsAreNotBlank()
    ensures !BlankText("main") && !BlankText(DATED_BASE) && !BlankText("why") && !BlankText("amy") && BlankText(" ")
    ensures ValidSelectorText("main") && !ValidSelectorText(DATED_BASE)
  {
    assert "main"[0] == 'm' && DATED_BASE[0] == 'H' && "why"[0] == 'w' && "amy"[0] == 'a' && DATED_BASE[7] == ' ';
  }

  // ----- a signed recovery nobody can spell -----

  function Signing(successor: string, reason: string, actor: string, base: string): Request {
    RequestFor(successor, reason, actor,
               AuthorizationText.Authorization("old", Digest('3'), Digest('1'), successor, actor, reason), base)
  }

  lemma ItIsSigned(successor: string, reason: string, actor: string, base: string)
    requires successor != "" && reason != "" && actor != "" && base != ""
    ensures var s, r := StatusIn(Invalidated), Signing(successor, reason, actor, base);
            && SignsRecovery(s, r) && !AsksForResults(s, ["review-risk"], Orders([])) && !ShowsReceipt(s, r)
            && (RecoveryIsSpellable(s, r) <==>
                  ValidLineage(successor) && successor != "old" && !BlankText(reason) && !BlankText(actor)
                  && ValidSelectorText(base))
  {
    hide ValidLineage, Digest, GitTree, Handle, BlankText, ValidSelectorText, AuthorizationText.Authorization;
    DigestsDiffer();
  }

  lemma SignedIsRefusedIff(successor: string, reason: string, actor: string, base: string)
    requires successor != "" && reason != "" && actor != "" && !BlankText(base)
    ensures BuiltAndRefused(Invalidated, Signing(successor, reason, actor, base), RecoveryAuthorized) <==>
              !(ValidLineage(successor) && successor != "old" && !BlankText(reason) && !BlankText(actor)
                && ValidSelectorText(base))
  {
    hide Assessed, Prepared, Build, Valid, Fits, ValidLineage, ValidSelectorText, BlankText, StatusIn, RequestFor, SignsRecovery,
         AsksForResults, ShowsReceipt, RecoveryIsSpellable, AuthorizationText.Authorization, Digest;
    var s, r := StatusIn(Invalidated), Signing(successor, reason, actor, base);
    assert base != "" by { EmptyIsBlank(); }
    ItIsSigned(successor, reason, actor, base);
    StatusIsAssessed(Invalidated);
    RequestIsPrepared(Invalidated, successor, reason, actor, r.authorization, base);
    SelectorIsThere(successor, reason, actor, base);
    assert s.applicability == CurrentTarget <==> s.authority.Some? by { CurrentHasAuthority(); }
    DecisionsAre(s, ["review-risk"], Orders([]), false, r);
    BuilderMeetsValidators(s, ["review-risk"], Orders([]), false, r);
  }

  lemma EmptyIsBlank()
    ensures BlankText("")
  {
  }

  lemma CurrentHasAuthority()
    ensures var s := StatusIn(Invalidated); s.applicability == CurrentTarget <==> s.authority.Some?
  {
  }

  lemma SelectorIsThere(successor: string, reason: string, actor: string, base: string)
    ensures var r := Signing(successor, reason, actor, base);
            r.selector.Some? && r == RequestFor(successor, reason, actor, r.authorization, base)
  {
    hide AuthorizationText.Authorization;
  }

  /** A recovery signed with a blank reason, or by a blank actor, or for a successor that is no lineage or is
      the predecessor again, or over a base that Git resolves but that is not one word, is built and refused. */
  lemma UnspellableRecoveriesAreRefused()
    ensures BuiltAndRefused(Invalidated, Signing("new", " ", "amy", "main"), RecoveryAuthorized)
    ensures BuiltAndRefused(Invalidated, Signing("new", "why", " ", "main"), RecoveryAuthorized)
    ensures BuiltAndRefused(Invalidated, Signing("New", "why", "amy", "main"), RecoveryAuthorized)
    ensures BuiltAndRefused(Invalidated, Signing("old", "why", "amy", "main"), RecoveryAuthorized)
    ensures BuiltAndRefused(Invalidated, Signing("new", "why", "amy", DATED_BASE), RecoveryAuthorized)
    ensures !BuiltAndRefused(Invalidated, Signing("new", "why", "amy", "main"), RecoveryAuthorized)
  {
    hide BuiltAndRefused, ValidLineage, ValidSelectorText, BlankText, Signing;
    LineagesAreValid();
    WordsAreNotBlank();
    SignedIsRefusedIff("new", " ", "amy", "main");
    SignedIsRefusedIff("new", "why", " ", "main");
    SignedIsRefusedIff("New", "why", "amy", "main");
    SignedIsRefusedIff("old", "why", "amy", "main");
    SignedIsRefusedIff("new", "why", "amy", DATED_BASE);
    SignedIsRefusedIff("new", "why", "amy", "main");
  }
}
