/**
 The FINALIZE planner: which authority transitions one request asks for.
 */
module FinalizePlan {
  import opened Wrappers

  datatype Result<+T> = Ok(value: T) | Err(reason: string)

  type Tree = nat
  type Bytes = seq<nat>

  const MAX_CORRECTION_ATTEMPTS: nat := 1

  datatype Phase = Reviewing | CorrectionRequired | Validating | Approved | Escalated | Invalidated

  // What admitting the reviewer results would decide. `accepted` is false when they are not admissible.
  datatype Verdict = Clean | NeedsFix(findings: set<nat>) | MustEscalate
  datatype Results = Results(count: nat, accepted: bool, verdict: Verdict)

  // A frozen candidate. For a correction found in the working tree, `bound` says it fits the reviewed
  // candidate, projection, findings and paths, with no stray untracked files.
  datatype Snapshot = Snapshot(tree: Tree, lines: nat, bound: bool)
  datatype Validation = Validation(passed: bool, target: Tree, wellFormed: bool)

  datatype Authority = Authority(
    phase: Phase, lowRisk: bool, lenses: nat, budget: nat, spent: nat, attempts: nat,
    proposed: Option<nat>, candidate: Snapshot, findings: set<nat>, results: Option<Results>, evidence: Bytes)

  // The request, the live correction, and the evidence the provider can generate for itself.
  datatype Inputs = Inputs(
    results: Results, validation: Option<Validation>, evidence: Bytes, lines: int, failed: bool,
    live: Snapshot, native: Option<Bytes>)

  datatype Op = CompleteReview | BeginFix | CompleteFix | CompleteVerification
  datatype Transition = Transition(op: Op, state: Authority)

  predicate Terminal(s: Authority) {
    s.phase == Approved || s.phase == Escalated
  }

  // ----- the four authority transitions -----

  function ReviewCompleted(s: Authority, r: Results): Result<Authority> {
    if s.phase != Reviewing then Err("not reviewing")
    else if r.count != s.lenses || !r.accepted then Err("results not admissible")
    else
      var recorded := s.(results := Some(r));
      match r.verdict
      case MustEscalate => Ok(recorded.(phase := Escalated))
      case NeedsFix(ids) => Ok(if ids == {} then recorded.(phase := Validating)
                               else recorded.(phase := CorrectionRequired, findings := ids))
      case Clean => Ok(recorded.(phase := Validating))
  }

  function CorrectionBegun(s: Authority, lines: int): Result<Authority> {
    if s.attempts >= MAX_CORRECTION_ATTEMPTS then Err("correction consumed")
    else if s.phase != CorrectionRequired || s.proposed.Some? then Err("cannot begin correction")
    else if lines <= 0 then Err("forecast required")
    else Ok(s.(proposed := Some(lines),
               phase := if s.spent + lines > s.budget then Escalated else s.phase))
  }

  function CorrectionCompleted(s: Authority, fix: Snapshot, v: Validation): Result<Authority> {
    if s.attempts >= MAX_CORRECTION_ATTEMPTS then Err("correction consumed")
    else if s.phase != CorrectionRequired || s.proposed.None? then Err("cannot complete correction")
    else if !fix.bound || fix.tree == s.candidate.tree then Err("correction not bound")
    else if !v.wellFormed || v.target != fix.tree then Err("validation not bound")
    else Ok(s.(attempts := s.attempts + 1, spent := s.spent + fix.lines, candidate := fix,
               phase := if s.spent + fix.lines > s.budget || !v.passed then Escalated else Validating))
  }

  function Verified(s: Authority, evidence: Bytes, approved: bool): Result<Authority> {
    if s.phase != Validating then Err("not validating")
    else if evidence == [] then Err("evidence required")
    else Ok(s.(evidence := evidence, phase := if approved then Approved else Escalated))
  }

  // ----- planning -----

  predicate NativeCandidate(s: Authority) {
    (s.phase == Reviewing || s.phase == Validating) && s.lowRisk && s.lenses == 0
  }

  // The evidence a validating authority would be given; empty when there is none.
  function EvidenceFor(s: Authority, i: Inputs): Result<Bytes> {
    if i.evidence != [] || !NativeCandidate(s) then Ok(i.evidence)
    else if i.native.None? then Err("low-risk evidence unavailable")
    else Ok(i.native.value)
  }

  // Only a correction already begun when the request arrives may be completed by it.
  predicate MayComplete(entry: Authority) {
    entry.phase == CorrectionRequired && entry.proposed.Some?
  }

  datatype Step = Halt | Fail(reason: string) | Go(op: Op, state: Authority)

  function Proceed(op: Op, r: Result<Authority>): Step {
    match r
    case Ok(s) => Go(op, s)
    case Err(reason) => Fail(reason)
  }

  // The next transition a request asks for, if any.
  function Next(mayComplete: bool, s: Authority, i: Inputs): Step {
    match s.phase
    case Reviewing => Proceed(CompleteReview, ReviewCompleted(s, i.results))
    case CorrectionRequired =>
      if s.proposed.None? && i.lines > 0 then Proceed(BeginFix, CorrectionBegun(s, i.lines))
      else if i.validation.Some? && mayComplete then
        Proceed(CompleteFix, CorrectionCompleted(s, i.live, i.validation.value))
      else Halt
    case Validating =>
      (match EvidenceFor(s, i)
       case Err(reason) => Fail(reason)
       case Ok(e) => if e == [] then Halt else Proceed(CompleteVerification, Verified(s, e, !i.failed)))
    case _ => Halt
  }

  // Progress of an authority; every transition increases it, so none can be taken twice.
  function Rank(s: Authority): nat {
    match s.phase
    case Reviewing => 0
    case CorrectionRequired => if s.proposed.None? then 1 else 2
    case Validating => 3
    case _ => 4
  }

  // A correction is forecast only while one is required, and never outlives the review it belongs to.
  predicate Coherent(s: Authority) {
    s.phase == Reviewing ==> s.proposed.None?
  }

  lemma NextIncreasesRank(mayComplete: bool, s: Authority, i: Inputs)
    requires Coherent(s) && Next(mayComplete, s, i).Go?
    ensures Rank(s) < Rank(Next(mayComplete, s, i).state) && Next(mayComplete, s, i).state.phase != Reviewing
  {
  }

  function PlanFrom(mayComplete: bool, s: Authority, i: Inputs): Result<seq<Transition>>
    decreases 4 - Rank(s)
  {
    match Next(mayComplete, s, i)
    case Halt => Ok([])
    case Fail(reason) => Err(reason)
    case Go(op, t) =>
      if Rank(s) >= Rank(t) then Err("no progress")
      else
        match PlanFrom(mayComplete, t, i)
        case Err(reason) => Err(reason)
        case Ok(rest) => Ok([Transition(op, t)] + rest)
  }

  // The plan of a request that finds the authority in state `s`.
  function PlanOf(s: Authority, i: Inputs): Result<seq<Transition>> {
    PlanFrom(MayComplete(s), s, i)
  }

  function Final(s: Authority, ts: seq<Transition>): Authority {
    if ts == [] then s else ts[|ts| - 1].state
  }

  // The authority after the first k transitions of a plan.
  function After(s: Authority, ts: seq<Transition>, k: nat): Authority
    requires k <= |ts|
  {
    if k == 0 then s else ts[k - 1].state
  }

  datatype Planned = Planned(transitions: seq<Transition>, candidate: Snapshot, evidence: Bytes)

  // The evidence a plan binds: what was supplied, or what was generated on reaching validation.
  function PlanEvidence(s: Authority, ts: seq<Transition>, i: Inputs): Bytes {
    if ts != [] && ts[|ts| - 1].op == CompleteVerification then Final(s, ts).evidence else i.evidence
  }

  // `done` is planned, and what is still to plan starts from `s`.
  ghost predicate Remaining(all: Result<seq<Transition>>, done: seq<Transition>, mayComplete: bool, s: Authority,
                            i: Inputs) {
    match PlanFrom(mayComplete, s, i)
    case Ok(rest) => all == Ok(done + rest)
    case Err(reason) => all == Err(reason)
  }

  lemma Advance(all: Result<seq<Transition>>, done: seq<Transition>, mayComplete: bool, s: Authority, i: Inputs)
    requires Remaining(all, done, mayComplete, s, i) && Coherent(s) && Next(mayComplete, s, i).Go?
    ensures var step := Next(mayComplete, s, i);
            Remaining(all, done + [Transition(step.op, step.state)], mayComplete, step.state, i) && Coherent(step.state)
  {
    NextIncreasesRank(mayComplete, s, i);
    var step := Next(mayComplete, s, i);
    match PlanFrom(mayComplete, step.state, i) {
      case Ok(rest) =>
        var first := [Transition(step.op, step.state)];
        assert PlanFrom(mayComplete, s, i) == Ok(first + rest);
        assert done + (first + rest) == (done + first) + rest;
      case Err(reason) =>
    }
  }

  // The planner's working state: what it has appended so far, and the authority it has arrived at.
  ghost predicate Working(entry: Authority, plan: Planned, state: Authority, mayComplete: bool, i: Inputs) {
    && Coherent(state) && mayComplete == MayComplete(entry)
    && Remaining(PlanOf(entry, i), plan.transitions, mayComplete, state, i)
    && state == Final(entry, plan.transitions) && plan.candidate == state.candidate && plan.evidence == i.evidence
    && (plan.transitions != [] ==> plan.transitions[|plan.transitions| - 1].op != CompleteVerification)
  }

  ghost predicate PlannedExactly(entry: Authority, i: Inputs, r: Result<Planned>) {
    && (r.Err? ==> PlanOf(entry, i) == Err(r.reason))
    && (r.Ok? ==> PlanOf(entry, i).Ok?)
    && (r.Ok? ==> r.value.transitions == PlanOf(entry, i).value &&
                  r.value.candidate == Final(entry, r.value.transitions).candidate &&
                  r.value.evidence == PlanEvidence(entry, r.value.transitions, i))
  }

  /** The planner as the code writes it: one pass over the four transitions, changing `state` as it
      goes. It computes exactly the iteration of Next, and names the candidate of the last state. */
  method PreparePlan(entry: Authority, i: Inputs) returns (r: Result<Planned>)
    requires Coherent(entry)
    ensures PlannedExactly(entry, i, r)
  {
    var mayComplete := entry.phase == CorrectionRequired && entry.proposed.Some?;
    var state := entry;
    var plan := Planned([], entry.candidate, i.evidence);
    assert Working(entry, plan, state, mayComplete, i) by {
      var all := PlanOf(entry, i);
      if all.Ok? { assert all.value == [] + all.value; }
    }
    if state.phase == Reviewing {
      var done := ReviewCompleted(state, i.results);
      if done.Err? { return Err(done.reason); }
      Advance(PlanOf(entry, i), plan.transitions, mayComplete, state, i);
      state := done.value;
      plan := plan.(transitions := plan.transitions + [Transition(CompleteReview, state)]);
    }
    assert state.phase != Reviewing && Working(entry, plan, state, mayComplete, i);
    r := PlanCorrection(entry, plan, state, mayComplete, i);
  }

  method PlanCorrection(entry: Authority, plan0: Planned, state0: Authority, mayComplete: bool,
                        i: Inputs) returns (r: Result<Planned>)
    requires Working(entry, plan0, state0, mayComplete, i) && state0.phase != Reviewing
    ensures PlannedExactly(entry, i, r)
  {
    var plan, state := plan0, state0;
    if state.phase == CorrectionRequired && state.proposed.None? && i.lines > 0 {
      var begun := CorrectionBegun(state, i.lines);
      if begun.Err? { return Err(begun.reason); }
      Advance(PlanOf(entry, i), plan.transitions, mayComplete, state, i);
      state := begun.value;
      plan := plan.(transitions := plan.transitions + [Transition(BeginFix, state)]);
    }
    ghost var plan1, state1 := plan, state;
    assert Working(entry, plan1, state1, mayComplete, i) && state.phase != Reviewing;
    assert state.phase == CorrectionRequired ==> state.proposed.Some? || i.lines <= 0;
    if state.phase == CorrectionRequired && i.validation.Some? && mayComplete {
      var completed := CorrectionCompleted(state, i.live, i.validation.value);
      if completed.Err? { return Err(completed.reason); }
      Advance(PlanOf(entry, i), plan.transitions, mayComplete, state, i);
      state := completed.value;
      plan := plan.(transitions := plan.transitions + [Transition(CompleteFix, state)], candidate := i.live);
    }
    assert state.phase == CorrectionRequired ==> Next(mayComplete, state, i).Halt?;
    r := PlanVerification(entry, plan, state, mayComplete, i);
  }

  method PlanVerification(entry: Authority, plan0: Planned, state0: Authority, mayComplete: bool,
                          i: Inputs) returns (r: Result<Planned>)
    requires Working(entry, plan0, state0, mayComplete, i) && state0.phase != Reviewing
    requires state0.phase == CorrectionRequired ==> Next(mayComplete, state0, i).Halt?
    ensures PlannedExactly(entry, i, r)
  {
    var plan, state := plan0, state0;
    if state.phase == Validating {
      if plan.evidence == [] && NativeCandidate(state) {
        if i.native.None? { return Err("low-risk evidence unavailable"); }
        plan := plan.(evidence := i.native.value);
      }
      if plan.evidence != [] {
        var verified := Verified(state, plan.evidence, !i.failed);
        Advance(PlanOf(entry, i), plan.transitions, mayComplete, state, i);
        state := verified.value;
        plan := plan.(transitions := plan.transitions + [Transition(CompleteVerification, state)]);
      }
    }
    assert PlanFrom(mayComplete, state, i) == Ok([]);
    assert plan.transitions + [] == plan.transitions;
    return Ok(plan);
  }

  // No authority reached by a transition is under review again.
  lemma PlanLeavesReview(mayComplete: bool, s: Authority, i: Inputs, k: nat)
    requires PlanFrom(mayComplete, s, i).Ok? && k <= |PlanFrom(mayComplete, s, i).value| && Coherent(s)
    ensures var t := After(s, PlanFrom(mayComplete, s, i).value, k);
            Coherent(t) && (k > 0 ==> t.phase != Reviewing)
  {
    if k > 0 {
      PlanUnfolds(mayComplete, s, i, k - 1);
      var ts := PlanFrom(mayComplete, s, i).value;
      assert ts[k - 1..][0] == ts[k - 1];
    }
  }

  // ----- what re-planning does -----

  lemma {:induction false} PlanUnfolds(mayComplete: bool, s: Authority, i: Inputs, k: nat)
    requires PlanFrom(mayComplete, s, i).Ok? && k <= |PlanFrom(mayComplete, s, i).value|
    ensures var ts := PlanFrom(mayComplete, s, i).value;
            PlanFrom(mayComplete, After(s, ts, k), i) == Ok(ts[k..])
    decreases k
  {
    var ts := PlanFrom(mayComplete, s, i).value;
    if k > 0 {
      var t := ts[0].state;
      PlanUnfolds(mayComplete, t, i, k - 1);
      assert ts[1..] == PlanFrom(mayComplete, t, i).value;
      assert After(s, ts, k) == After(t, ts[1..], k - 1);
      assert ts[k..] == ts[1..][k - 1..];
    }
  }

  // Where the permission to complete a correction can matter at all.
  predicate CouldComplete(s: Authority, i: Inputs) {
    s.phase == CorrectionRequired && s.proposed.Some? && i.validation.Some?
  }

  // Permission does not change the plan unless the plan comes to an authority that could use it.
  lemma {:induction false} PermissionIrrelevant(a: bool, b: bool, s: Authority, i: Inputs)
    requires s.phase != Reviewing && s.phase != CorrectionRequired
    ensures PlanFrom(a, s, i) == PlanFrom(b, s, i)
  {
    if s.phase == Validating && Next(a, s, i).Go? {
      assert PlanFrom(a, Next(a, s, i).state, i) == Ok([]) == PlanFrom(b, Next(a, s, i).state, i);
    }
  }

  /** Re-planning composes: planning again, with the same inputs, from the authority after any proper
      non-empty part of a plan yields exactly the rest of that plan. */
  lemma {:induction false} ReplanYieldsRest(s: Authority, i: Inputs, k: nat)
    requires Coherent(s) && PlanOf(s, i).Ok? && 0 < k < |PlanOf(s, i).value|
    ensures PlanOf(After(s, PlanOf(s, i).value, k), i) == Ok(PlanOf(s, i).value[k..])
  {
    var ts := PlanOf(s, i).value;
    var t := After(s, ts, k);
    PlanUnfolds(MayComplete(s), s, i, k - 1);
    PlanUnfolds(MayComplete(s), s, i, k);
    if t.phase == CorrectionRequired {
      assert PlanFrom(MayComplete(s), t, i) == Ok(ts[k..]) && ts[k..] != [];
      assert Next(MayComplete(s), t, i).Go?;
      if t.proposed.None? {
        var u := Next(MayComplete(s), t, i).state;
        assert ts[k..][0] == Transition(BeginFix, u);
        if u.phase == CorrectionRequired {
          assert !MayComplete(s) by {
            if MayComplete(s) { PlanStartsWithCompletion(s, i); }
          }
          assert PlanFrom(false, u, i) == PlanFrom(MayComplete(s), u, i);
        } else {
          PermissionIrrelevant(MayComplete(s), MayComplete(t), u, i);
        }
      } else {
        var before := After(s, ts, k - 1);
        assert PlanFrom(MayComplete(s), before, i) == Ok(ts[k - 1..]) && Next(MayComplete(s), before, i) == Go(ts[k - 1].op, t);
        PlanLeavesReview(MayComplete(s), s, i, k - 1);
        assert ts[k - 1].op == BeginFix;
        if MayComplete(s) { PlanStartsWithCompletion(s, i); }
      }
    } else {
      PlanLeavesReview(MayComplete(s), s, i, k);
      PermissionIrrelevant(MayComplete(s), MayComplete(t), t, i);
    }
  }

  // A request that arrives with a correction under way completes it first or does nothing to it.
  lemma PlanStartsWithCompletion(s: Authority, i: Inputs)
    requires MayComplete(s) && PlanOf(s, i).Ok?
    ensures forall j :: 0 <= j < |PlanOf(s, i).value| ==>
              (PlanOf(s, i).value[j].op == CompleteFix <==> j == 0) && PlanOf(s, i).value[j].op != BeginFix &&
              PlanOf(s, i).value[j].state.phase != CorrectionRequired
  {
    var ts := PlanOf(s, i).value;
    if ts != [] {
      var t := ts[0].state;
      assert ts == [Transition(CompleteFix, t)] + PlanFrom(true, t, i).value;
      if PlanFrom(true, t, i).value != [] {
        var u := PlanFrom(true, t, i).value[0].state;
        assert PlanFrom(true, t, i).value == [Transition(CompleteVerification, u)] + PlanFrom(true, u, i).value;
        assert PlanFrom(true, u, i) == Ok([]);
      }
    }
  }

  /** No plan both begins and completes a correction. */
  lemma {:induction false} NoPlanBeginsAndCompletes(s: Authority, i: Inputs, j: nat, k: nat)
    requires Coherent(s) && PlanOf(s, i).Ok?
    requires j < |PlanOf(s, i).value| && k < |PlanOf(s, i).value|
    ensures !(PlanOf(s, i).value[j].op == BeginFix && PlanOf(s, i).value[k].op == CompleteFix)
  {
    var ts := PlanOf(s, i).value;
    if MayComplete(s) {
      PlanStartsWithCompletion(s, i);
    } else {
      PlanUnfolds(false, s, i, k);
      assert Next(false, After(s, ts, k), i).Go? && ts[k..][0] == ts[k];
    }
  }

  /** Planning again from the last state of a plan asks for nothing more, except after a begun
      correction whose request also carries a validation: there a replay would go beyond the plan, or
      fail, which is why a replay standing at the last journalled transition returns early. */
  lemma {:induction false} ReplanAtEnd(s: Authority, i: Inputs)
    requires Coherent(s) && PlanOf(s, i).Ok? && PlanOf(s, i).value != []
    ensures var t := Final(s, PlanOf(s, i).value);
            PlanOf(t, i) != Ok([]) <==> CouldComplete(t, i)
  {
    var ts := PlanOf(s, i).value;
    var t := Final(s, ts);
    PlanUnfolds(MayComplete(s), s, i, |ts| - 1);
    PlanUnfolds(MayComplete(s), s, i, |ts|);
    assert PlanFrom(MayComplete(s), t, i) == Ok([]);
    assert Next(MayComplete(s), After(s, ts, |ts| - 1), i) == Go(ts[|ts| - 1].op, t);
    if t.phase == CorrectionRequired {
      assert Next(MayComplete(s), t, i).Halt?;
    } else {
      PermissionIrrelevant(MayComplete(s), MayComplete(t), t, i);
    }
  }

  /** Transitions only move forward: along a plan the rank of the authority strictly increases. */
  lemma {:induction false} PlanClimbs(mayComplete: bool, s: Authority, i: Inputs, j: nat, k: nat)
    requires PlanFrom(mayComplete, s, i).Ok? && j < k <= |PlanFrom(mayComplete, s, i).value|
    ensures var ts := PlanFrom(mayComplete, s, i).value;
            Rank(After(s, ts, j)) < Rank(After(s, ts, k))
    decreases k
  {
    var ts := PlanFrom(mayComplete, s, i).value;
    PlanUnfolds(mayComplete, s, i, k - 1);
    assert ts[k - 1..][0] == ts[k - 1];
    if j < k - 1 { PlanClimbs(mayComplete, s, i, j, k - 1); }
  }
}
