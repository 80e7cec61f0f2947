/**
 The write-ahead journal of FINALIZE and the durable steps of one run.

 Revisions and request digests are injective, so a revision is represented by the authority it
 identifies and a request digest by the request itself.
 */
module FinalizeJournal {
  import opened Wrappers
  import Crash
  import opened FinalizePlan

  datatype Revision = Revision(of: Authority)

  datatype Request = Request(
    expected: Revision, candidate: Snapshot, results: Results, lines: int, validation: Option<Validation>,
    evidence: Bytes, failed: bool)

  datatype Noted = Noted(op: Op, expected: Revision, revision: Revision)

  datatype Attempt = Attempt(request: Request, transitions: seq<Noted>, receiptPublished: bool, completed: bool)

  datatype Receipt = Receipt(lenses: nat, candidate: Snapshot, evidence: Bytes, findings: set<nat>, terminal: Phase)

  function ReceiptOf(s: Authority): Receipt {
    Receipt(s.lenses, s.candidate, s.evidence, s.findings, s.phase)
  }

  // `history` lists every authority that was ever current, oldest first; the last one is current.
  datatype Store = Store(history: seq<Authority>, journal: seq<Attempt>, receipt: Option<Receipt>)

  function Current(st: Store): Authority
    requires st.history != []
  {
    st.history[|st.history| - 1]
  }

  datatype StoreOp =
    | Begin(request: Request)
    | Note(request: Request, noted: Noted)
    | Commit(expected: Revision, next: Authority)
    | PublishReceipt(receipt: Receipt)
    | MarkReceipt(request: Request)
    | Complete(request: Request)

  function IndexOf(journal: seq<Attempt>, r: Request): (k: nat)
    ensures k <= |journal|
    ensures k < |journal| ==> journal[k].request == r
    ensures forall j :: 0 <= j < k ==> journal[j].request != r
  {
    if journal == [] || journal[0].request == r then 0 else 1 + IndexOf(journal[1..], r)
  }

  function NotedIn(a: Attempt, n: Noted): Attempt {
    if n in a.transitions then a else a.(transitions := a.transitions + [n])
  }

  // A commit is a compare-and-swap on the revision that succeeds at once when its outcome is current.
  function Apply(st: Store, op: StoreOp): Store {
    match op
    case Begin(r) => st.(journal := st.journal + [Attempt(r, [], false, false)])
    case Note(r, n) =>
      var k := IndexOf(st.journal, r);
      if k == |st.journal| then st else st.(journal := st.journal[k := NotedIn(st.journal[k], n)])
    case Commit(expected, next) =>
      if st.history == [] || Current(st) == next || Revision(Current(st)) != expected then st
      else st.(history := st.history + [next])
    case PublishReceipt(r) => if st.receipt.None? then st.(receipt := Some(r)) else st
    case MarkReceipt(r) =>
      var k := IndexOf(st.journal, r);
      if k == |st.journal| then st else st.(journal := st.journal[k := st.journal[k].(receiptPublished := true)])
    case Complete(r) =>
      var k := IndexOf(st.journal, r);
      if k == |st.journal| then st else st.(journal := st.journal[k := st.journal[k].(completed := true)])
  }

  function MakeRequest(s: Authority, candidate: Snapshot, evidence: Bytes, i: Inputs): Request {
    Request(Revision(s), candidate, i.results, i.lines, i.validation, evidence, i.failed)
  }

  predicate SamePayload(a: Request, b: Request) {
    a.(expected := b.expected) == b
  }

  // The latest attempt not yet completed; |journal| when there is none.
  function PendingIndex(journal: seq<Attempt>): (k: nat)
    ensures k <= |journal|
    ensures k < |journal| ==> !journal[k].completed
    ensures forall j :: k < j < |journal| ==> journal[j].completed
    ensures k == |journal| ==> forall j :: 0 <= j < |journal| ==> journal[j].completed
  {
    if journal == [] then 0
    else if !journal[|journal| - 1].completed then |journal| - 1
    else
      var k := PendingIndex(journal[..|journal| - 1]);
      if k == |journal| - 1 then |journal| else k
  }

  // The first journalled transition that produced the current authority; |transitions| when none did.
  function StandsAt(a: Attempt, s: Authority): (k: nat)
    ensures k <= |a.transitions|
    ensures k < |a.transitions| ==> a.transitions[k].revision == Revision(s)
    ensures forall j :: 0 <= j < k ==> a.transitions[j].revision != Revision(s)
    decreases |a.transitions|
  {
    if a.transitions == [] || a.transitions[0].revision == Revision(s) then 0
    else 1 + StandsAt(a.(transitions := a.transitions[1..]), s)
  }

  predicate MayResume(a: Attempt, r: Request, s: Authority) {
    if a.request.expected == Revision(s) then r.expected == a.request.expected
    else r.expected == Revision(s) && exists k :: 0 <= k < |a.transitions| && a.transitions[k].revision == Revision(s)
  }

  // Replay admission: resume the attempt at an index, start a fresh one, or refuse.
  datatype Admission = Resume(index: nat) | Fresh | Mismatch

  function Reconcile(journal: seq<Attempt>, r: Request, s: Authority, k: nat): Admission
    requires k <= |journal|
    decreases |journal| - k
  {
    if k == |journal| then Fresh
    else
      var a := journal[k];
      if a.request == r then Resume(k)
      else if a.completed then Reconcile(journal, r, s, k + 1)
      else if SamePayload(a.request, r) && MayResume(a, r, s) then Resume(k)
      else Mismatch
  }

  // ----- one run -----

  // `bare` is a run given only the lineage; `valid` says the frozen and live snapshots check out.
  datatype Invocation = Invocation(bare: bool, valid: bool, inputs: Inputs)

  datatype Outcome = Done | Refused(reason: string) | Crashed

  datatype RunPlan = RunPlan(ops: seq<StoreOp>, outcome: Outcome)

  function NotedAt(s: Authority, ts: seq<Transition>, j: nat): Noted
    requires j < |ts|
  {
    Noted(ts[j].op, Revision(After(s, ts, j)), Revision(ts[j].state))
  }

  function NotedPlan(s: Authority, ts: seq<Transition>): seq<Noted> {
    seq(|ts|, j requires 0 <= j < |ts| => NotedAt(s, ts, j))
  }

  // Every transition is journalled before any is committed.
  function NoteOps(r: Request, s: Authority, ts: seq<Transition>): seq<StoreOp> {
    seq(|ts|, j requires 0 <= j < |ts| => Note(r, NotedAt(s, ts, j)))
  }

  function CommitOps(s: Authority, ts: seq<Transition>): seq<StoreOp> {
    seq(|ts|, j requires 0 <= j < |ts| => Commit(Revision(After(s, ts, j)), ts[j].state))
  }

  function CloseOps(r: Request, t: Authority): seq<StoreOp> {
    if Terminal(t) then [PublishReceipt(ReceiptOf(t)), MarkReceipt(r), Complete(r)] else [Complete(r)]
  }

  function ExecuteOps(r: Request, s: Authority, ts: seq<Transition>): seq<StoreOp> {
    NoteOps(r, s, ts) + CommitOps(s, ts) + CloseOps(r, Final(s, ts))
  }

  function TerminalRun(st: Store, inv: Invocation): RunPlan
    requires st.history != []
  {
    var s := Current(st);
    var k := PendingIndex(st.journal);
    if !inv.bare then RunPlan([], Refused("terminal review finalize accepts no review inputs"))
    else if st.receipt.Some? && st.receipt.value != ReceiptOf(s) then RunPlan([], Refused("receipt conflict"))
    else if st.receipt.Some? then
      RunPlan(if k == |st.journal| then [] else [Complete(st.journal[k].request)], Done)
    else if k < |st.journal| then RunPlan(CloseOps(st.journal[k].request, s), Done)
    else
      var r := MakeRequest(s, s.candidate, inv.inputs.evidence, inv.inputs);
      match Reconcile(st.journal, r, s, 0)
      case Mismatch => RunPlan([], Refused("request mismatch"))
      case Fresh => RunPlan([Begin(r)] + CloseOps(r, s), Done)
      case Resume(j) =>
        if j < |st.journal| then RunPlan(CloseOps(st.journal[j].request, s), Done)
        else RunPlan([], Refused("no such attempt"))
  }

  // A replay standing at a journalled transition.
  function ReplayRun(st: Store, k: nat, at: nat, i: Inputs): RunPlan
    requires st.history != [] && k < |st.journal|
  {
    var s := Current(st);
    match EvidenceFor(s, i)
    case Err(reason) => RunPlan([], Refused(reason))
    case Ok(evidence) =>
      match Reconcile(st.journal, MakeRequest(s, s.candidate, evidence, i), s, 0)
      case Mismatch => RunPlan([], Refused("request mismatch"))
      case Fresh => RunPlan([], Refused("no such attempt"))
      case Resume(j) =>
        if j >= |st.journal| then RunPlan([], Refused("no such attempt"))
        else if at == |st.journal[j].transitions| - 1 then RunPlan([Complete(st.journal[j].request)], Done)
        else
          match PlanOf(s, i)
          case Err(reason) => RunPlan([], Refused(reason))
          case Ok(ts) => RunPlan(ExecuteOps(st.journal[j].request, s, ts), Done)
  }

  /** The durable steps of one FINALIZE run. */
  function FinalizeRun(st: Store, inv: Invocation): RunPlan
    requires st.history != []
  {
    var s := Current(st);
    var k := PendingIndex(st.journal);
    if Terminal(s) then TerminalRun(st, inv)
    else if k < |st.journal| && StandsAt(st.journal[k], s) < |st.journal[k].transitions| then
      ReplayRun(st, k, StandsAt(st.journal[k], s), inv.inputs)
    else if k == |st.journal| && !inv.valid then RunPlan([], Refused("snapshot validation failed"))
    else
      match PlanOf(s, inv.inputs)
      case Err(reason) => RunPlan([], Refused(reason))
      case Ok(ts) =>
        if k == |st.journal| && ts == [] then RunPlan([], Done)
        else
          var r := MakeRequest(s, Final(s, ts).candidate, PlanEvidence(s, ts, inv.inputs), inv.inputs);
          match Reconcile(st.journal, r, s, 0)
          case Mismatch => RunPlan([], Refused("request mismatch"))
          case Fresh => RunPlan([Begin(r)] + ExecuteOps(r, s, ts), Done)
          case Resume(j) =>
            if j < |st.journal| then RunPlan(ExecuteOps(st.journal[j].request, s, ts), Done)
            else RunPlan([], Refused("no such attempt"))
  }

  function Perform(st: Store, ops: seq<StoreOp>): Store {
    Crash.Run(Apply, st, ops)
  }

  // ----- the journalled plan -----

  // The inputs a request digest stands for.
  function InputsOf(r: Request): Inputs {
    Inputs(r.results, r.validation, r.evidence, r.lines, r.failed, r.candidate, Some([]))
  }

  // The plan an attempt was begun with.
  function PlannedBy(r: Request): Result<seq<Transition>> {
    PlanOf(r.expected.of, InputsOf(r))
  }

  // Requests that agree on what a plan looks at get the same plan.
  lemma {:induction false} PlanDependsOn(mayComplete: bool, s: Authority, i: Inputs, i': Inputs)
    requires Coherent(s) && PlanFrom(mayComplete, s, i).Ok?
    requires i.results == i'.results && i.validation == i'.validation && i.lines == i'.lines && i.failed == i'.failed
    requires mayComplete && CouldComplete(s, i) ==> i.live == i'.live
    requires forall k :: 0 <= k <= |PlanFrom(mayComplete, s, i).value| ==>
               var t := After(s, PlanFrom(mayComplete, s, i).value, k);
               t.phase == Validating ==> EvidenceFor(t, i) == EvidenceFor(t, i')
    requires mayComplete ==> MayComplete(s) || (s.phase != Reviewing && s.phase != CorrectionRequired)
    ensures PlanFrom(mayComplete, s, i') == PlanFrom(mayComplete, s, i)
    decreases 4 - Rank(s)
  {
    var ts := PlanFrom(mayComplete, s, i).value;
    assert After(s, ts, 0) == s;
    if ts != [] {
      var t := ts[0].state;
      assert Next(mayComplete, s, i) == Go(ts[0].op, t) == Next(mayComplete, s, i');
      var rest := PlanFrom(mayComplete, t, i).value;
      assert ts == [ts[0]] + rest;
      NextIncreasesRank(mayComplete, s, i);
      forall k | 0 <= k <= |rest| ensures After(t, rest, k) == After(s, ts, k + 1) {
      }
      PlanDependsOn(mayComplete, t, i, i');
    } else {
      assert Next(mayComplete, s, i).Halt? && Next(mayComplete, s, i').Halt?;
    }
  }

  // Evidence is only used at the end of a plan, and an authority that ends there used it.
  lemma {:induction false} EvidenceAlongPlan(s: Authority, i: Inputs, k: nat)
    requires Coherent(s) && PlanOf(s, i).Ok? && k <= |PlanOf(s, i).value|
    requires After(s, PlanOf(s, i).value, k).phase == Validating
    ensures EvidenceFor(After(s, PlanOf(s, i).value, k), i).Ok?
    ensures var e := EvidenceFor(After(s, PlanOf(s, i).value, k), i).value;
            if e == [] then PlanEvidence(s, PlanOf(s, i).value, i) == i.evidence == []
            else PlanEvidence(s, PlanOf(s, i).value, i) == e
  {
    var ts := PlanOf(s, i).value;
    var t := After(s, ts, k);
    PlanUnfolds(MayComplete(s), s, i, k);
    var e := EvidenceFor(t, i).value;
    if e == [] {
      assert ts[k..] == [];
      if k > 0 {
        PlanUnfolds(MayComplete(s), s, i, k - 1);
        assert ts[k - 1..][0] == ts[k - 1];
      }
    } else {
      var u := Next(MayComplete(s), t, i).state;
      assert PlanFrom(MayComplete(s), u, i) == Ok([]);
      assert ts[k..] == [Transition(CompleteVerification, u)] + [];
      assert ts[|ts| - 1] == ts[k..][0];
    }
  }

  // A completed correction is the candidate a plan ends with.
  lemma CompletedCandidate(s: Authority, i: Inputs)
    requires MayComplete(s) && CouldComplete(s, i) && PlanOf(s, i).Ok?
    ensures Final(s, PlanOf(s, i).value).candidate == i.live
  {
    var ts := PlanOf(s, i).value;
    var t := Next(true, s, i).state;
    assert ts == [Transition(CompleteFix, t)] + PlanFrom(true, t, i).value;
    if t.phase == Validating && Next(true, t, i).Go? {
      var u := Next(true, t, i).state;
      assert PlanFrom(true, u, i) == Ok([]);
      assert PlanFrom(true, t, i).value == [Transition(CompleteVerification, u)] + [];
    } else {
      assert PlanFrom(true, t, i).value == [];
    }
  }

  /** The request digest determines the plan: the plan of the run that journalled a request can be
      recovered from the request alone. */
  lemma RequestDeterminesPlan(s: Authority, i: Inputs)
    requires Coherent(s) && PlanOf(s, i).Ok?
    ensures var ts := PlanOf(s, i).value;
            PlannedBy(MakeRequest(s, Final(s, ts).candidate, PlanEvidence(s, ts, i), i)) == Ok(ts)
  {
    var ts := PlanOf(s, i).value;
    var r := MakeRequest(s, Final(s, ts).candidate, PlanEvidence(s, ts, i), i);
    if MayComplete(s) && CouldComplete(s, i) { CompletedCandidate(s, i); }
    forall k | 0 <= k <= |ts| && After(s, ts, k).phase == Validating
      ensures EvidenceFor(After(s, ts, k), i) == EvidenceFor(After(s, ts, k), InputsOf(r))
    {
      EvidenceAlongPlan(s, i, k);
    }
    PlanDependsOn(MayComplete(s), s, i, InputsOf(r));
  }

  // Past its entry, a plan never waits at a correction that a validation could complete.
  lemma MidPlanCannotComplete(s: Authority, i: Inputs, k: nat)
    requires Coherent(s) && PlanOf(s, i).Ok? && 0 < k < |PlanOf(s, i).value|
    ensures !MayComplete(After(s, PlanOf(s, i).value, k))
  {
    var ts := PlanOf(s, i).value;
    var t := After(s, ts, k);
    PlanUnfolds(MayComplete(s), s, i, k);
    PlanUnfolds(MayComplete(s), s, i, k - 1);
    assert ts[k - 1..][0] == ts[k - 1];
    if MayComplete(t) {
      PlanLeavesReview(MayComplete(s), s, i, k - 1);
      if MayComplete(s) { PlanStartsWithCompletion(s, i); }
      assert false;
    }
  }

  // What a replay standing at `t` supplies as evidence is what the rest of the plan uses.
  lemma SameEvidence(t: Authority, i0: Inputs, i: Inputs, j: nat)
    requires PlanOf(t, i0).Ok? && j <= |PlanOf(t, i0).value| && Coherent(t)
    requires EvidenceFor(t, i).Ok? && i0.evidence == EvidenceFor(t, i).value && i0.native == Some([])
    requires t.phase == CorrectionRequired || t.phase == Validating
    requires !MayComplete(t)
    requires After(t, PlanOf(t, i0).value, j).phase == Validating
    ensures EvidenceFor(After(t, PlanOf(t, i0).value, j), i0) == EvidenceFor(After(t, PlanOf(t, i0).value, j), i)
  {
    var rest := PlanOf(t, i0).value;
    if j > 0 {
      PlanUnfolds(false, t, i0, j - 1);
      assert rest[j - 1..][0] == rest[j - 1];
      PlanLeavesReview(false, t, i0, j - 1);
      PlanClimbs(false, t, i0, 0, j);
    }
  }

  /** Replay composes with the journal: a request admitted at a journalled intermediate revision plans
      exactly what is left of the journalled plan. */
  lemma ReplayPlansRest(r: Request, k: nat, i: Inputs)
    requires Coherent(r.expected.of) && PlannedBy(r).Ok? && 0 < k < |PlannedBy(r).value|
    requires var t := After(r.expected.of, PlannedBy(r).value, k);
             EvidenceFor(t, i).Ok? && SamePayload(r, MakeRequest(t, t.candidate, EvidenceFor(t, i).value, i))
    ensures PlanOf(After(r.expected.of, PlannedBy(r).value, k), i) == Ok(PlannedBy(r).value[k..])
  {
    var s, i0 := r.expected.of, InputsOf(r);
    var ts := PlannedBy(r).value;
    var t := After(s, ts, k);
    ReplanYieldsRest(s, i0, k);
    PlanLeavesReview(MayComplete(s), s, i0, k);
    MidPlanCannotComplete(s, i0, k);
    var rest := ts[k..];
    assert t.phase == CorrectionRequired || t.phase == Validating by {
      assert Next(MayComplete(t), t, i0).Go?;
    }
    hide PlanFrom, Next;
    forall j | 0 <= j <= |rest| && After(t, rest, j).phase == Validating
      ensures EvidenceFor(After(t, rest, j), i0) == EvidenceFor(After(t, rest, j), i)
    {
      SameEvidence(t, i0, i, j);
    }
    PlanDependsOn(false, t, i0, i);
  }
}
