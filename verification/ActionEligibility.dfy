/**
 Which managed actions a status allows and forbids.
 */
module ActionEligibility {
  import opened Wrappers
  import opened ReviewText
  import opened TransitionTypes

  datatype Action =
    | Abandon | FinalizeReview | InvalidateReview | QuarantineLegacy | Reclaim | ReconcileAuthority | ReconcileBatch
    | RecoverReview | RepairReview | RetryVerification | StartReview | ValidateReview | StopHere

  function Managed(): seq<Action> {
    [Abandon, FinalizeReview, InvalidateReview, QuarantineLegacy, Reclaim, ReconcileAuthority, ReconcileBatch,
     RecoverReview, RepairReview, RetryVerification, StartReview, ValidateReview]
  }

  datatype Why =
    | EligibleCurrent | EligibleEscalated | EligibleRecovery | EligibleRepair | EligibleRetry | NotSelected
    | AmbiguousAuthority | CorruptedAuthorityStatus | UnrelatedTarget | TerminalEscalated | UnchangedEscalated
    | ManualOnly | ReconciliationPending | InputsUnavailable

  datatype Proof = Proof(lineage: string, revision: string, target: string)

  datatype Allowed = Allowed(action: Action, why: Why, inputs: nat, disposition: Recovery, binding: Option<Proof>)
  datatype Forbidden = Forbidden(action: Action, why: Why)
  datatype Eligibility = Eligibility(allowed: seq<Allowed>, forbidden: seq<Forbidden>)

  function Bare(action: Action, why: Why, inputs: nat): Allowed {
    Allowed(action, why, inputs, NoRecovery, None)
  }

  function ProofOf(s: Status, target: string): Option<Proof> {
    if s.authority.Some? then Some(Proof(s.authority.value.lineage, s.authority.value.revision, target)) else None
  }

  // `inputs` counts the required inputs named.
  function AllowedBy(s: Status): Allowed {
    match s.action
    case StartAction => Bare(StartReview, EligibleCurrent, 0)
    case ValidateAction => Bare(StopHere, InputsUnavailable, 0)
    case FinalizeAction =>
      if s.replay == ExactReplaySafe then Bare(FinalizeReview, EligibleCurrent, 1) else Bare(StopHere, InputsUnavailable, 0)
    case ReconcileAction => Bare(StopHere, ReconciliationPending, 0)
    case RecoverAction =>
      Allowed(RecoverReview, if s.recovery == EscalatedRecovery then EligibleEscalated else EligibleRecovery, 7, s.recovery,
              ProofOf(s, s.targetIdentity))
    case RetryVerificationAction =>
      Allowed(RetryVerification, EligibleRetry, 7, VerificationRetry, ProofOf(s, AuthorityTargetIdentity(s)))
    case RepairAction =>
      if s.repair.candidate.Some? then Bare(RepairReview, EligibleRepair, 3) else Bare(StopHere, ManualOnly, 0)
    case _ => Bare(StopHere, ManualOnly, 0)
  }

  function ForbiddenWhy(s: Status, allowed: Allowed): Why {
    if s.applicability == Ambiguous then AmbiguousAuthority
    else if s.applicability == Corrupted then CorruptedAuthorityStatus
    else if s.applicability == Unrelated then UnrelatedTarget
    else if s.action == StopAction && s.authority.Some? && s.authority.value.state == Escalated then TerminalEscalated
    else if s.action == StopAction && s.authority.Some? && s.authority.value.state == CorrectionRequired then UnchangedEscalated
    else if s.action == ReconcileAction then ReconciliationPending
    else if allowed.action == StopHere && allowed.why == InputsUnavailable then InputsUnavailable
    else NotSelected
  }

  /** What a status allows: only these six actions, each exactly under its own condition, and otherwise to
      stop; and why. A validation, and a finalization that is not an exact replay, wait for inputs. */
  lemma AllowedIs(s: Status)
    ensures var a := AllowedBy(s);
            var replays := s.action == FinalizeAction && s.replay == ExactReplaySafe;
            var repairs := s.action == RepairAction && s.repair.candidate.Some?;
            && (a.action == StartReview <==> s.action == StartAction)
            && (a.action == FinalizeReview <==> replays)
            && (a.action == RecoverReview <==> s.action == RecoverAction)
            && (a.action == RetryVerification <==> s.action == RetryVerificationAction)
            && (a.action == RepairReview <==> repairs)
            && (a.action in [StartReview, FinalizeReview, RecoverReview, RetryVerification, RepairReview, StopHere])
            && (a.why == EligibleCurrent <==> s.action == StartAction || replays)
            && (a.why == EligibleEscalated <==> s.action == RecoverAction && s.recovery == EscalatedRecovery)
            && (a.why == EligibleRecovery <==> s.action == RecoverAction && s.recovery != EscalatedRecovery)
            && (a.why == EligibleRetry <==> s.action == RetryVerificationAction)
            && (a.why == EligibleRepair <==> repairs)
            && (a.why == ReconciliationPending <==> s.action == ReconcileAction)
            && (a.why == InputsUnavailable <==> s.action == ValidateAction || (s.action == FinalizeAction && !replays))
            && (a.why == ManualOnly <==> s.action == MaintainerAction || s.action == SelectLineageAction ||
                                         s.action == StopAction || (s.action == RepairAction && !repairs))
  {
  }

  /** What an allowed action asks for and is bound to. */
  lemma AllowedCarries(s: Status)
    ensures var a := AllowedBy(s);
            && a.inputs == (if a.action == RecoverReview || a.action == RetryVerification then 7
                            else if a.action == RepairReview then 3 else if a.action == FinalizeReview then 1 else 0)
            && (a.action == RecoverReview ==> a.disposition == s.recovery)
            && (a.action == RetryVerification ==> a.disposition == VerificationRetry)
            && (a.action != RecoverReview && a.action != RetryVerification ==> a.disposition == NoRecovery)
            && (a.binding.Some? <==> (a.action == RecoverReview || a.action == RetryVerification) && s.authority.Some?)
            && (a.binding.Some? ==>
                  && a.binding.value.lineage == s.authority.value.lineage
                  && a.binding.value.revision == s.authority.value.revision
                  && a.binding.value.target ==
                     if a.action == RetryVerification && s.authorityTarget != "" then s.authorityTarget else s.targetIdentity)
  {
  }

  /** Why everything else is forbidden: of these causes the first that applies. */
  lemma ForbiddenIs(s: Status)
    ensures var why := ForbiddenWhy(s, AllowedBy(s));
            var current := s.applicability == CurrentTarget;
            var stopped := current && s.action == StopAction && s.authority.Some?;
            var waits := s.action == ValidateAction || (s.action == FinalizeAction && s.replay != ExactReplaySafe);
            && (why == AmbiguousAuthority <==> s.applicability == Ambiguous)
            && (why == CorruptedAuthorityStatus <==> s.applicability == Corrupted)
            && (why == UnrelatedTarget <==> s.applicability == Unrelated)
            && (why == TerminalEscalated <==> stopped && s.authority.value.state == Escalated)
            && (why == UnchangedEscalated <==> stopped && s.authority.value.state == CorrectionRequired)
            && (why == ReconciliationPending <==> current && s.action == ReconcileAction)
            && (why == InputsUnavailable <==> current && waits)
            && (why == NotSelected <==>
                  && current && s.action != ReconcileAction && !waits
                  && !(stopped && (s.authority.value.state == Escalated || s.authority.value.state == CorrectionRequired)))
  {
  }

  // Every managed action is either the one allowed or forbidden, and is mentioned once.
  ghost predicate ClassifiesOnce(e: Eligibility, managed: seq<Action>) {
    && |e.allowed| == 1
    && (forall i :: 0 <= i < |e.forbidden| ==> e.forbidden[i].action in managed && e.forbidden[i].action != e.allowed[0].action)
    && (forall i, j :: 0 <= i < j < |e.forbidden| ==> e.forbidden[i].action != e.forbidden[j].action)
    && (forall a :: a in managed && a != e.allowed[0].action ==> exists i :: 0 <= i < |e.forbidden| && e.forbidden[i].action == a)
  }

  /** The classification as the code fills it in: one pass over the managed actions, skipping the one
      that is allowed. */
  method Classify(s: Status) returns (e: Eligibility)
    ensures e.allowed == [AllowedBy(s)]
    ensures ClassifiesOnce(e, Managed())
    ensures forall i :: 0 <= i < |e.forbidden| ==> e.forbidden[i].why == ForbiddenWhy(s, AllowedBy(s))
  {
    var allowed := AllowedBy(s);
    var why := ForbiddenWhy(s, allowed);
    var forbidden: seq<Forbidden> := [];
    for k := 0 to |Managed()|
      invariant ClassifiesOnce(Eligibility([allowed], forbidden), Managed()[..k])
      invariant forall i :: 0 <= i < |forbidden| ==> forbidden[i].why == why
    {
      ghost var before := forbidden;
      DistinctManaged(k);
      if Managed()[k] != allowed.action {
        forbidden := forbidden + [Forbidden(Managed()[k], why)];
        assert forbidden[|before|].action == Managed()[k];
      }
      Extends(allowed, before, forbidden, why, Managed()[..k], Managed()[k]);
      assert Managed()[..k + 1] == Managed()[..k] + [Managed()[k]];
    }
    assert Managed()[..|Managed()|] == Managed();
    return Eligibility([allowed], forbidden);
  }

  lemma DistinctManaged(k: nat)
    requires k < |Managed()|
    ensures Managed()[k] !in Managed()[..k]
  {
    assert forall j :: 0 <= j < k ==> Managed()[j] != Managed()[k];
  }

  lemma Extends(allowed: Allowed, before: seq<Forbidden>, after: seq<Forbidden>, why: Why, done: seq<Action>,
                next: Action)
    requires next !in done && ClassifiesOnce(Eligibility([allowed], before), done)
    requires after == if next == allowed.action then before else before + [Forbidden(next, why)]
    ensures ClassifiesOnce(Eligibility([allowed], after), done + [next])
  {
    var now := done + [next];
    forall a | a in now && a != allowed.action ensures exists i :: 0 <= i < |after| && after[i].action == a {
      if a in done {
        var i :| 0 <= i < |before| && before[i].action == a;
        assert after[i].action == a;
      } else {
        assert after[|before|].action == a;
      }
    }
  }

  // ----- the validator -----

  predicate ValidAllowed(s: Status, a: Allowed) {
    && (s.action == StartAction ==> a.action == StartReview && a.why == EligibleCurrent && a.inputs == 0)
    && (if a.action == RecoverReview || a.action == RetryVerification then
          && a.disposition == s.recovery && s.authority.Some?
          && a.binding == Some(Proof(s.authority.value.lineage, s.authority.value.revision,
                                     if a.action == RetryVerification then AuthorityTargetIdentity(s) else s.targetIdentity))
        else a.disposition == NoRecovery && a.binding.None?)
  }

  // The validator's own scan: no action twice, and every managed action seen.
  predicate ValidEligibility(s: Status, e: Eligibility) {
    && |e.allowed| == 1 && ValidAllowed(s, e.allowed[0])
    && (forall i :: 0 <= i < |e.forbidden| ==> e.forbidden[i].action != e.allowed[0].action)
    && (forall i, j :: 0 <= i < j < |e.forbidden| ==> e.forbidden[i].action != e.forbidden[j].action)
    && (forall k :: 0 <= k < |Managed()| ==>
          Managed()[k] == e.allowed[0].action || exists i :: 0 <= i < |e.forbidden| && e.forbidden[i].action == Managed()[k])
  }

  // Actions that recover or retry belong to a current authority.
  predicate RecoversCurrent(s: Status) {
    && (s.action == RecoverAction || s.action == RetryVerificationAction ==> s.authority.Some?)
    && (s.action == RetryVerificationAction ==> s.recovery == VerificationRetry)
  }

  /** What is built alongside the transition passes its own validator, and classifies every managed action
      exactly once. */
  lemma ClassificationIsValid(s: Status, e: Eligibility)
    requires RecoversCurrent(s) && e.allowed == [AllowedBy(s)] && ClassifiesOnce(e, Managed())
    ensures ValidEligibility(s, e)
  {
    assert ValidAllowed(s, e.allowed[0]);
    forall k | 0 <= k < |Managed()| && Managed()[k] != e.allowed[0].action
      ensures exists i :: 0 <= i < |e.forbidden| && e.forbidden[i].action == Managed()[k]
    {
      assert Managed()[k] in Managed();
    }
    hide Managed;
  }

  /** What an accepted classification guarantees, whatever built it: one action is allowed, no other is mentioned
      twice, every managed action is mentioned, a fresh start is not held up, and only recoveries and retries carry
      a disposition and a binding, those of the current authority and its target. */
  lemma AcceptedClassification(s: Status, e: Eligibility)
    requires ValidEligibility(s, e)
    ensures |e.allowed| == 1
    ensures var a := e.allowed[0];
            && (s.action == StartAction ==> a.action == StartReview && a.why == EligibleCurrent && a.inputs == 0)
            && (forall i, j :: 0 <= i < |e.forbidden| && 0 <= j < |e.forbidden| && e.forbidden[i].action == e.forbidden[j].action ==>
                  i == j)
            && (forall m :: m in Managed() ==>
                  (m == a.action <==> !exists i :: 0 <= i < |e.forbidden| && e.forbidden[i].action == m))
            && (if a.action == RecoverReview || a.action == RetryVerification then
                  && s.authority.Some? && a.disposition == s.recovery && a.binding.Some?
                  && a.binding.value.lineage == s.authority.value.lineage
                  && a.binding.value.revision == s.authority.value.revision
                  && a.binding.value.target == if a.action == RetryVerification && s.authorityTarget != "" then s.authorityTarget
                                               else s.targetIdentity
                else a.disposition == NoRecovery && a.binding.None?)
  {
    forall m | m in Managed()
      ensures m == e.allowed[0].action <==> !exists i :: 0 <= i < |e.forbidden| && e.forbidden[i].action == m
    {
      var k :| 0 <= k < |Managed()| && Managed()[k] == m;
    }
  }

  method NewEligibility(s: Status) returns (e: Eligibility)
    requires RecoversCurrent(s)
    ensures ValidEligibility(s, e) && ClassifiesOnce(e, Managed()) && e.allowed == [AllowedBy(s)]
  {
    e := Classify(s);
    ClassificationIsValid(s, e);
  }
}
