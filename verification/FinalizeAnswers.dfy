/**
 Which transitions a request gets, and which authority each of them reaches: said of the authority before,
 the inputs and the authority after.
 */
module FinalizeAnswers {
  import opened Wrappers
  import opened FinalizePlan

  // Nothing but the named parts differs.
  predicate SameReview(s: Authority, t: Authority) {
    t.lowRisk == s.lowRisk && t.lenses == s.lenses && t.budget == s.budget
  }

  predicate SameCorrection(s: Authority, t: Authority) {
    t.spent == s.spent && t.attempts == s.attempts && t.proposed == s.proposed && t.candidate == s.candidate
  }

  // The k-th transition of the plan, from the authority before it to the one it reaches.
  predicate Takes(s: Authority, i: Inputs, k: nat, u: Authority, t: Authority, op: Op) {
    PlanOf(s, i).Ok? && k < |PlanOf(s, i).value| &&
    var ts := PlanOf(s, i).value; u == After(s, ts, k) && t == ts[k].state && op == ts[k].op
  }

  lemma PlannedIsNext(s: Authority, i: Inputs, k: nat, u: Authority, t: Authority, op: Op)
    requires Takes(s, i, k, u, t, op)
    ensures Next(MayComplete(s), u, i) == Go(op, t)
  {
    PlanUnfolds(MayComplete(s), s, i, k);
    assert PlanOf(s, i).value[k..][0] == PlanOf(s, i).value[k];
  }

  /** A completed verification approves exactly when the request does not say it failed, and escalates exactly
      when it does. Its evidence is what was supplied, or for a native low-risk candidate what was generated. */
  lemma VerificationDecides(s: Authority, i: Inputs, k: nat, u: Authority, t: Authority)
    requires Takes(s, i, k, u, t, CompleteVerification)
    ensures u.phase == Validating
    ensures t.phase == Approved <==> !i.failed
    ensures t.phase == Escalated <==> i.failed
    ensures if i.evidence != [] then t.evidence == i.evidence
            else u.lowRisk && u.lenses == 0 && i.native == Some(t.evidence) && t.evidence != []
    ensures SameReview(u, t) && SameCorrection(u, t) && t.findings == u.findings && t.results == u.results
  {
    PlannedIsNext(s, i, k, u, t, CompleteVerification);
  }

  /** A completed review records the results, and goes where their verdict says: escalated, to a correction of
      exactly the findings that need one, or to validation. */
  lemma ReviewDecides(s: Authority, i: Inputs, k: nat, u: Authority, t: Authority)
    requires Takes(s, i, k, u, t, CompleteReview)
    ensures u.phase == Reviewing && i.results.accepted && i.results.count == u.lenses
    ensures t.phase == Escalated <==> i.results.verdict == MustEscalate
    ensures t.phase == CorrectionRequired <==> i.results.verdict.NeedsFix? && i.results.verdict.findings != {}
    ensures t.phase == CorrectionRequired ==> t.findings == i.results.verdict.findings
    ensures t.phase != CorrectionRequired ==> t.findings == u.findings
    ensures t.phase == Validating <==> i.results.verdict == Clean || i.results.verdict == NeedsFix({})
    ensures t.results == Some(i.results) && SameReview(u, t) && SameCorrection(u, t) && t.evidence == u.evidence
  {
    PlannedIsNext(s, i, k, u, t, CompleteReview);
  }

  /** A begun correction records its forecast, and escalates exactly when that goes over the budget. */
  lemma ForecastDecides(s: Authority, i: Inputs, k: nat, u: Authority, t: Authority)
    requires Takes(s, i, k, u, t, BeginFix)
    ensures u.phase == CorrectionRequired && u.proposed.None? && u.attempts == 0 && i.lines > 0
    ensures t.proposed.Some? && t.proposed.value == i.lines
    ensures t.phase == Escalated <==> u.spent + i.lines > u.budget
    ensures t.phase == CorrectionRequired <==> u.spent + i.lines <= u.budget
    ensures SameReview(u, t) && t.spent == u.spent && t.attempts == u.attempts && t.candidate == u.candidate
    ensures t.findings == u.findings && t.results == u.results && t.evidence == u.evidence
  {
    PlannedIsNext(s, i, k, u, t, BeginFix);
  }

  /** A completed correction is of the live fix, which is bound to the review and changes its candidate, and of
      a validation of just that fix. It escalates exactly when the validation failed or the budget is exceeded,
      and else goes to validation; either way the attempt and its lines are spent. */
  lemma CorrectionDecides(s: Authority, i: Inputs, k: nat, u: Authority, t: Authority)
    requires Takes(s, i, k, u, t, CompleteFix)
    ensures k == 0 && u.phase == CorrectionRequired && u.proposed.Some? && u.attempts == 0
    ensures i.live.bound && i.live.tree != u.candidate.tree
    ensures i.validation.Some? && i.validation.value.wellFormed && i.validation.value.target == i.live.tree
    ensures t.phase == Escalated <==> !i.validation.value.passed || u.spent + i.live.lines > u.budget
    ensures t.phase == Validating <==> i.validation.value.passed && u.spent + i.live.lines <= u.budget
    ensures t.candidate == i.live && t.spent == u.spent + i.live.lines && t.attempts == u.attempts + 1
    ensures SameReview(u, t) && t.proposed == u.proposed && t.findings == u.findings
    ensures t.results == u.results && t.evidence == u.evidence
  {
    PlannedIsNext(s, i, k, u, t, CompleteFix);
    PlanStartsWithCompletion(s, i);
  }

  // What a validating authority can be verified with.
  predicate HasEvidence(s: Authority, i: Inputs) {
    i.evidence != [] || (s.lowRisk && s.lenses == 0 && i.native.Some? && i.native.value != [])
  }

  /** After any part of a plan, what follows: a review under way is completed; a correction without a forecast
      is begun if the request forecasts one; one that was forecast before the request arrived is completed if
      the request brings its validation; a validation is completed if there is evidence; and nothing else. */
  lemma {:induction false} WhatFollows(s: Authority, i: Inputs, k: nat)
    requires Coherent(s) && PlanOf(s, i).Ok? && k <= |PlanOf(s, i).value|
    ensures var ts := PlanOf(s, i).value;
            var u := After(s, ts, k);
            && (k < |ts| && ts[k].op == CompleteReview <==> u.phase == Reviewing)
            && (k < |ts| && ts[k].op == BeginFix <==> u.phase == CorrectionRequired && u.proposed.None? && i.lines > 0)
            && (k < |ts| && ts[k].op == CompleteFix <==>
                  k == 0 && u.phase == CorrectionRequired && u.proposed.Some? && i.validation.Some?)
            && (k < |ts| && ts[k].op == CompleteVerification <==> u.phase == Validating && HasEvidence(u, i))
  {
    var ts := PlanOf(s, i).value;
    var u := After(s, ts, k);
    PlanUnfolds(MayComplete(s), s, i, k);
    if k < |ts| { assert ts[k..][0] == ts[k]; } else { assert ts[k..] == []; }
    if k > 0 && MayComplete(s) { PlanStartsWithCompletion(s, i); }
  }

  // ----- what is refused -----

  // Evidence has to be generated and cannot be.
  predicate LacksNativeEvidence(s: Authority, i: Inputs) {
    i.evidence == [] && s.lowRisk && s.lenses == 0 && i.native.None?
  }

  predicate FixRefused(s: Authority, i: Inputs)
    requires i.validation.Some?
  {
    || s.attempts >= MAX_CORRECTION_ATTEMPTS || !i.live.bound || i.live.tree == s.candidate.tree
    || !i.validation.value.wellFormed || i.validation.value.target != i.live.tree
    || (i.validation.value.passed && s.spent + i.live.lines <= s.budget && LacksNativeEvidence(s, i))
  }

  predicate ReviewRefused(s: Authority, i: Inputs) {
    || !i.results.accepted || i.results.count != s.lenses
    || match i.results.verdict
       case MustEscalate => false
       case Clean => LacksNativeEvidence(s, i)
       case NeedsFix(ids) =>
         if ids == {} then LacksNativeEvidence(s, i) else i.lines > 0 && s.attempts >= MAX_CORRECTION_ATTEMPTS
  }

  predicate Refuses(s: Authority, i: Inputs) {
    match s.phase
    case Reviewing => ReviewRefused(s, i)
    case CorrectionRequired =>
      if s.proposed.None? then i.lines > 0 && s.attempts >= MAX_CORRECTION_ATTEMPTS
      else i.validation.Some? && FixRefused(s, i)
    case Validating => LacksNativeEvidence(s, i)
    case _ => false
  }

  /** Exactly which requests get no plan. */
  lemma {:induction false} RefusedIff(s: Authority, i: Inputs)
    requires Coherent(s)
    ensures PlanOf(s, i).Err? <==> Refuses(s, i)
  {
    var m := MayComplete(s);
    var step := Next(m, s, i);
    if step.Go? {
      NextIncreasesRank(m, s, i);
      assert PlanOf(s, i).Err? <==> PlanFrom(m, step.state, i).Err?;
      AfterOneStep(m, step.state, i);
    }
  }

  // Where no correction can be completed, at most one more transition follows.
  lemma AfterOneStep(m: bool, s: Authority, i: Inputs)
    requires s.phase != Reviewing && !(m && s.phase == CorrectionRequired)
    ensures PlanFrom(m, s, i).Err? <==>
              match s.phase
              case Validating => LacksNativeEvidence(s, i)
              case CorrectionRequired => s.proposed.None? && i.lines > 0 && s.attempts >= MAX_CORRECTION_ATTEMPTS
              case _ => false
  {
    var next := Next(m, s, i);
    if next.Go? {
      NextIncreasesRank(m, s, i);
      assert Next(m, next.state, i).Halt?;
      assert PlanFrom(m, next.state, i) == Ok([]);
    }
  }

  // ----- where a plan ends -----

  /** A plan leads to approval exactly by a verification that did not fail; whatever else it does, it does not
      approve. */
  lemma {:induction false} ApprovedIff(s: Authority, i: Inputs)
    requires Coherent(s) && PlanOf(s, i).Ok? && s.phase != Approved
    ensures var ts := PlanOf(s, i).value;
            Final(s, ts).phase == Approved <==>
              ts != [] && ts[|ts| - 1].op == CompleteVerification && !i.failed
  {
    var ts := PlanOf(s, i).value;
    if ts != [] {
      var k := |ts| - 1;
      var u, t, op := After(s, ts, k), ts[k].state, ts[k].op;
      match op {
        case CompleteVerification => VerificationDecides(s, i, k, u, t);
        case CompleteReview => ReviewDecides(s, i, k, u, t);
        case BeginFix => ForecastDecides(s, i, k, u, t);
        case CompleteFix => CorrectionDecides(s, i, k, u, t);
      }
    }
  }
}
