/**
 Retrying FINALIZE: the same request, run again after any number of crashes.
 */
module FinalizeRetry {
  import opened Wrappers
  import Crash
  import opened FinalizePlan
  import opened FinalizeJournal
  import opened FinalizeCrash
  import opened FinalizeRuns

  // The same request again. Once the authority is terminal only the lineage may be given.
  function Again(inv: Invocation, st: Store): Invocation {
    if st.history != [] && Terminal(Current(st)) then inv.(bare := true) else inv
  }

  // A request that is about to begin from `st`.
  ghost predicate Begins(st: Store, inv: Invocation, ts: seq<Transition>) {
    && st.history != [] && Inv(st) && !Terminal(Current(st)) && PendingIndex(st.journal) == |st.journal|
    && PlanOf(Current(st), inv.inputs) == Ok(ts) && ts != [] && inv.valid
  }

  function RequestOf(s: Authority, ts: seq<Transition>, i: Inputs): Request {
    MakeRequest(s, Final(s, ts).candidate, PlanEvidence(s, ts, i), i)
  }

  function Committing(st: Store, x: Store): nat {
    if |st.history| <= |x.history| then |x.history| - |st.history| else 0
  }

  // The request has begun: its attempt is pending, and the history shows a prefix of its plan.
  ghost predicate Begun(st: Store, inv: Invocation, ts: seq<Transition>, x: Store)
    requires st.history != []
  {
    && Inv(x) && x.journal != []
    && x.journal[|x.journal| - 1].request == RequestOf(Current(st), ts, inv.inputs)
    && !x.journal[|x.journal| - 1].completed
    && Committing(st, x) <= |ts| && x.history == st.history + States(ts[..Committing(st, x)])
  }

  ghost predicate Underway(st: Store, inv: Invocation, ts: seq<Transition>, x: Store) {
    Begins(st, inv, ts) && (x == st || Begun(st, inv, ts, x))
  }

  lemma {:induction false} CandidateSettles(mayComplete: bool, s: Authority, i: Inputs, k: nat)
    requires PlanFrom(mayComplete, s, i).Ok? && 0 < k <= |PlanFrom(mayComplete, s, i).value|
    requires mayComplete ==> MayComplete(s)
    ensures var ts := PlanFrom(mayComplete, s, i).value;
            After(s, ts, k).candidate == Final(s, ts).candidate
    decreases |PlanFrom(mayComplete, s, i).value| - k
  {
    var ts := PlanFrom(mayComplete, s, i).value;
    if k < |ts| {
      CandidateSettles(mayComplete, s, i, k + 1);
      PlanUnfolds(mayComplete, s, i, k);
      assert ts[k..][0] == ts[k];
      assert Next(mayComplete, After(s, ts, k), i) == Go(ts[k].op, ts[k].state);
      if mayComplete { PlanStartsWithCompletion(s, i); }
    }
  }

  // The same request, standing at a transition of its own plan, is recognised as the same request.
  lemma SamePayloadMidPlan(s: Authority, i: Inputs, k: nat)
    requires Coherent(s) && PlanOf(s, i).Ok? && 0 < k <= |PlanOf(s, i).value|
    requires !Terminal(After(s, PlanOf(s, i).value, k))
    ensures var ts := PlanOf(s, i).value;
            var t := After(s, ts, k);
            EvidenceFor(t, i).Ok? &&
            SamePayload(RequestOf(s, ts, i), MakeRequest(t, t.candidate, EvidenceFor(t, i).value, i))
  {
    var ts := PlanOf(s, i).value;
    var t := After(s, ts, k);
    CandidateSettles(MayComplete(s), s, i, k);
    PlanLeavesReview(MayComplete(s), s, i, k);
    if t.phase == Validating {
      EvidenceAlongPlan(s, i, k);
    } else {
      PlanUnfolds(MayComplete(s), s, i, k - 1);
      assert ts[k - 1..][0] == ts[k - 1];
      assert t.phase == CorrectionRequired;
      if MayComplete(s) { PlanStartsWithCompletion(s, i); }
      PlanUnfolds(false, s, i, k);
      if Next(false, t, i).Go? {
        var u := Next(false, t, i).state;
        assert PlanFrom(false, u, i) == Ok([]);
        assert ts[k..] == [Transition(BeginFix, u)] + [];
        assert ts[|ts| - 1] == ts[k..][0];
      } else {
        assert ts[k..] == [];
      }
    }
  }

  // ----- where the attempt of a crashed request stands -----

  // Different positions in a plan are different authorities.
  lemma PositionsDiffer(s: Authority, i: Inputs, p: nat, k: nat)
    requires PlanOf(s, i).Ok? && p <= |PlanOf(s, i).value| && k <= |PlanOf(s, i).value|
    ensures After(s, PlanOf(s, i).value, p) == After(s, PlanOf(s, i).value, k) ==> p == k
  {
    if p < k {
      PlanClimbs(MayComplete(s), s, i, p, k);
    } else if k < p {
      PlanClimbs(MayComplete(s), s, i, k, p);
    }
  }

  lemma {:induction false} BegunIsOpen(st: Store, inv: Invocation, ts: seq<Transition>, x: Store)
    requires Begins(st, inv, ts) && Begun(st, inv, ts, x)
    ensures var a, k := x.journal[|x.journal| - 1], Committing(st, x);
            Open(x, a, k) && PlannedBy(a.request) == Ok(ts) && a.request.expected.of == Current(st) &&
            Position(a, Current(x)) == k && PendingIndex(x.journal) == |x.journal| - 1 &&
            Current(x) == After(Current(st), ts, k)
  {
    var s, a, k := Current(st), x.journal[|x.journal| - 1], Committing(st, x);
    assert Coherent(s);
    assert Current(x) == After(s, ts, k);
    hide Inv;
    RequestDeterminesPlan(s, inv.inputs);
    PendingIsOpen(x);
    var p := Position(a, Current(x));
    PositionIs(x, a, p);
    assert Open(x, a, p) && p <= |ts|;
    hide PlanFrom, Open, Position;
    PositionsDiffer(s, inv.inputs, p, k);
  }

  lemma {:induction false} ReplayIsAdmitted(st: Store, inv: Invocation, ts: seq<Transition>, x: Store)
    requires Begins(st, inv, ts) && Begun(st, inv, ts, x)
    requires Committing(st, x) > 0 && !Terminal(Current(x))
    ensures FinalizeRun(x, inv).outcome.Done?
  {
    hide PlanFrom, HistoryClimbs, Distinct, Resumable, EndsWith;
    var s, i := Current(st), inv.inputs;
    var a, k := x.journal[|x.journal| - 1], Committing(st, x);
    var t := Current(x);
    assert Coherent(s) by { CurrentIsCoherent(st); }
    BegunIsOpen(st, inv, ts, x);
    SamePayloadMidPlan(s, i, k);
    var r := MakeRequest(t, t.candidate, EvidenceFor(t, i).value, i);
    AdmissionIs(x, r, 0);
    assert MayResume(a, r, t);
    if k < |ts| { ReplayPlansRest(a.request, k, i); }
  }

  lemma CurrentIsCoherent(st: Store)
    requires st.history != [] && Inv(st)
    ensures Coherent(Current(st))
  {
  }

  /** The same request is admitted again wherever it was cut off, and owes exactly what is missing. */
  lemma AgainIsAdmitted(st: Store, inv: Invocation, ts: seq<Transition>, x: Store)
    requires Underway(st, inv, ts, x)
    ensures x.history != [] && FinalizeRun(x, Again(inv, x)).outcome.Done?
    ensures Committing(st, x) <= |ts| && Owed(x, inv.inputs) == ts[Committing(st, x)..]
  {
    var s, i := Current(st), inv.inputs;
    hide PlanFrom, HistoryClimbs, Distinct, Resumable, EndsWith;
    assert Inv(x) && Coherent(s) by { CurrentIsCoherent(st); }
    if x == st {
      var r := RequestOf(s, ts, i);
      AdmissionIs(st, r, 0);
      assert ts[0..] == ts;
    } else {
      BegunIsOpen(st, inv, ts, x);
      var a, k := x.journal[|x.journal| - 1], Committing(st, x);
      var t := Current(x);
      hide Inv;
      if Terminal(t) {
        TerminalRunIsSound(x, Again(inv, x));
        TerminalIsFullyCommitted(x, a, k);
      } else if k > 0 {
        ReplayIsAdmitted(st, inv, ts, x);
      } else {
        AdmissionIs(x, RequestOf(s, ts, i), 0);
      }
    }
  }

  // ----- what an interrupted run leaves behind -----

  // Only the last step of a run completes an attempt.
  ghost predicate CompletesLast(ops: seq<StoreOp>) {
    ops != [] && ops[|ops| - 1].Complete? &&
    forall j :: 0 <= j < |ops| - 1 ==> !ops[j].Complete?
  }

  ghost predicate BeginsNothing(ops: seq<StoreOp>) {
    forall j :: 0 <= j < |ops| ==> !ops[j].Begin?
  }

  lemma ExecuteShape(r: Request, s: Authority, ts: seq<Transition>)
    ensures CompletesLast(ExecuteOps(r, s, ts)) && BeginsNothing(ExecuteOps(r, s, ts))
    ensures CompletesLast(CloseOps(r, s)) && BeginsNothing(CloseOps(r, s))
  {
    var notes, commits, closes := NoteOps(r, s, ts), CommitOps(s, ts), CloseOps(r, Final(s, ts));
    assert forall j :: 0 <= j < |closes| - 1 ==> !closes[j].Complete?;
    assert ExecuteOps(r, s, ts) == (notes + commits) + closes;
  }

  lemma ShortShape(r: Request)
    ensures CompletesLast([Complete(r)]) && BeginsNothing([Complete(r)])
  {
  }

  // The steps of a run that finds its attempt pending.
  lemma {:induction false} PendingShape(x: Store, again: Invocation)
    requires Inv(x) && PendingIndex(x.journal) < |x.journal| && FinalizeRun(x, again).outcome.Done?
    ensures var ops := FinalizeRun(x, again).ops; CompletesLast(ops) && BeginsNothing(ops)
  {
    var s, i := Current(x), again.inputs;
    PendingIsOpen(x);
    assert !x.journal[|x.journal| - 1].completed;
    if !Terminal(s) && PlanOf(s, i).Ok? {
      var ts := PlanOf(s, i).value;
      AdmissionIs(x, RequestOf(s, ts, i), 0);
    }
    hide Inv, PlanOf, Open, Position, StandsAt, EvidenceFor, CompletesLast, BeginsNothing, ExecuteOps, CloseOps;
    forall r, ts ensures CompletesLast(ExecuteOps(r, s, ts)) && BeginsNothing(ExecuteOps(r, s, ts))
                      && CompletesLast(CloseOps(r, s)) && BeginsNothing(CloseOps(r, s)) {
      ExecuteShape(r, s, ts);
    }
    forall r ensures CompletesLast([Complete(r)]) && BeginsNothing([Complete(r)]) {
      ShortShape(r);
    }
  }

  // The steps of the run that begins the attempt.
  lemma {:induction false} BeginningShape(st: Store, inv: Invocation, ts: seq<Transition>)
    requires Begins(st, inv, ts)
    ensures var r := RequestOf(Current(st), ts, inv.inputs);
            FinalizeRun(st, inv).ops == [Begin(r)] + ExecuteOps(r, Current(st), ts)
  {
    AdmissionIs(st, RequestOf(Current(st), ts, inv.inputs), 0);
    hide Inv, ExecuteOps;
  }

  lemma {:induction false} AgainShape(st: Store, inv: Invocation, ts: seq<Transition>, x: Store)
    requires Underway(st, inv, ts, x)
    ensures x.history != []
    ensures InterruptibleShape(st, inv, ts, x, FinalizeRun(x, Again(inv, x)).ops)
  {
    AgainIsAdmitted(st, inv, ts, x);
    assert Inv(x);
    hide Inv, FinalizeRun;
    if x == st {
      BeginningShape(st, inv, ts);
      ExecuteShape(RequestOf(Current(st), ts, inv.inputs), Current(st), ts);
    } else {
      BegunIsOpen(st, inv, ts, x);
      PendingShape(x, Again(inv, x));
    }
  }

  ghost predicate InterruptibleShape(st: Store, inv: Invocation, ts: seq<Transition>, x: Store, ops: seq<StoreOp>)
    requires st.history != []
  {
    if x == st then
      var r := RequestOf(Current(st), ts, inv.inputs);
      var rest := ExecuteOps(r, Current(st), ts);
      ops == [Begin(r)] + rest && CompletesLast(rest) && BeginsNothing(rest)
    else CompletesLast(ops) && BeginsNothing(ops)
  }

  ghost predicate SameAttempts(a: seq<Attempt>, b: seq<Attempt>) {
    |a| == |b| && forall j :: 0 <= j < |a| ==> a[j].request == b[j].request && a[j].completed == b[j].completed
  }

  // Steps other than these two leave every attempt as it was, but for its transitions.
  lemma {:induction false} OtherStepsKeepAttempts(st: Store, ops: seq<StoreOp>)
    requires BeginsNothing(ops) && forall j :: 0 <= j < |ops| ==> !ops[j].Complete?
    ensures SameAttempts(st.journal, Perform(st, ops).journal)
    decreases |ops|
  {
    if ops != [] {
      OtherStepsKeepAttempts(Apply(st, ops[0]), ops[1..]);
    }
  }

  lemma InterruptedKeepsAttempts(st: Store, ops: seq<StoreOp>, budget: nat)
    requires CompletesLast(ops) && BeginsNothing(ops) && budget < |ops|
    ensures SameAttempts(st.journal, Perform(st, Crash.Cut(ops, budget)).journal)
  {
    OtherStepsKeepAttempts(st, Crash.Cut(ops, budget));
  }

  // ----- crash after crash -----

  lemma {:induction false} UnderwayHistory(st: Store, inv: Invocation, ts: seq<Transition>, x: Store)
    requires Underway(st, inv, ts, x)
    ensures Committing(st, x) <= |ts| && x.history == st.history + States(ts[..Committing(st, x)])
  {
    hide Inv, PlanOf;
    if x == st { assert st.history + States(ts[..0]) == st.history; }
  }

  lemma SettledEnds(st: Store, y: Store, x: Store, ts: seq<Transition>, owed: seq<Transition>)
    requires st.history != [] && ts != [] && Settled(x, y, owed)
    requires x.history + States(owed) == st.history + States(ts)
    ensures y.history == st.history + States(ts) && y.history == x.history + States(owed)
    ensures PendingIndex(y.journal) == |y.journal|
    ensures Terminal(Final(Current(st), ts)) ==> y.receipt == Some(ReceiptOf(Final(Current(st), ts)))
  {
    hide Inv;
    assert Current(y) == Final(Current(st), ts);
  }

  // One more run of the request, cut off before its last step, leaves the request under way.
  lemma {:induction false} CrashStaysUnderway(st: Store, inv: Invocation, ts: seq<Transition>, x: Store, budget: nat)
    requires Underway(st, inv, ts, x) && x.history != []
    requires budget < |FinalizeRun(x, Again(inv, x)).ops|
    ensures Underway(st, inv, ts, RunOnce(x, Event(Again(inv, x), budget)))
    ensures Committing(st, x) <= Committing(st, RunOnce(x, Event(Again(inv, x), budget)))
  {
    hide Inv, PlanOf, Owed, Again, FinalizeRun, InterruptibleShape, RequestOf, States, Perform, Apply;
    var k := Committing(st, x);
    var again := Again(inv, x);
    var y := RunOnce(x, Event(again, budget));
    AgainIsAdmitted(st, inv, ts, x);
    AgainShape(st, inv, ts, x);
    RunAtCrash(x, Event(again, budget));
    AttemptStays(st, inv, ts, x, FinalizeRun(x, again).ops, budget);
    AgainOwesSame(inv, x);
    var j: nat :| Committed(x, y, ts[k..], j);
    UnderwayHistory(st, inv, ts, x);
    StatesJoin(st.history, ts, k, j);
    StatesLength(st.history, ts, k + j);
  }

  lemma AgainOwesSame(inv: Invocation, x: Store)
    ensures Again(inv, x).inputs == inv.inputs
  {
  }

  lemma StatesLength(h: seq<Authority>, ts: seq<Transition>, k: nat)
    requires k <= |ts|
    ensures |h + States(ts[..k])| == |h| + k
  {
  }

  lemma StatesConcat(h: seq<Authority>, a: seq<Transition>, b: seq<Transition>)
    ensures (h + States(a)) + States(b) == h + States(a + b)
  {
    assert States(a + b) == States(a) + States(b);
    assert (h + States(a)) + States(b) == h + (States(a) + States(b));
  }

  lemma StatesJoin(h: seq<Authority>, ts: seq<Transition>, k: nat, j: nat)
    requires k <= |ts| && j <= |ts| - k
    ensures (h + States(ts[..k])) + States(ts[k..][..j]) == h + States(ts[..k + j])
  {
    assert ts[..k] + ts[k..][..j] == ts[..k + j];
    hide States;
    StatesConcat(h, ts[..k], ts[k..][..j]);
  }

  lemma {:induction false} AttemptStays(st: Store, inv: Invocation, ts: seq<Transition>, x: Store, ops: seq<StoreOp>,
                                        budget: nat)
    requires Underway(st, inv, ts, x) && budget < |ops|
    requires InterruptibleShape(st, inv, ts, x, ops)
    ensures var y := Perform(x, Crash.Cut(ops, budget));
            y == st ||
            (y.journal != [] && y.journal[|y.journal| - 1].request == RequestOf(Current(st), ts, inv.inputs) &&
             !y.journal[|y.journal| - 1].completed)
  {
    hide Inv, PlanOf;
    var y := Perform(x, Crash.Cut(ops, budget));
    if x == st {
      var r := RequestOf(Current(st), ts, inv.inputs);
      var rest := ExecuteOps(r, Current(st), ts);
      hide ExecuteOps;
      if budget == 0 {
        assert Crash.Cut(ops, 0) == [];
      } else {
        var x1 := Apply(x, Begin(r));
        assert Crash.Cut(ops, budget)[0] == Begin(r) && Crash.Cut(ops, budget)[1..] == Crash.Cut(rest, budget - 1);
        assert y == Perform(x1, Crash.Cut(rest, budget - 1));
        InterruptedKeepsAttempts(x1, rest, budget - 1);
      }
    } else {
      InterruptedKeepsAttempts(x, ops, budget);
    }
  }

  // The request, run over and over, each run cut off at the given number of steps.
  function Crashes(st: Store, inv: Invocation, budgets: seq<nat>): Store
    decreases |budgets|
  {
    if budgets == [] then st
    else
      var x := Crashes(st, inv, budgets[..|budgets| - 1]);
      RunOnce(x, Event(Again(inv, x), budgets[|budgets| - 1]))
  }

  // Each of these runs dies before its last step.
  ghost predicate EachInterrupted(st: Store, inv: Invocation, budgets: seq<nat>)
    decreases |budgets|
  {
    budgets == [] ||
    var x := Crashes(st, inv, budgets[..|budgets| - 1]);
    && EachInterrupted(st, inv, budgets[..|budgets| - 1])
    && (x.history != [] ==> budgets[|budgets| - 1] < |FinalizeRun(x, Again(inv, x)).ops|)
  }

  lemma {:induction false} CrashesStayUnderway(st: Store, inv: Invocation, ts: seq<Transition>, budgets: seq<nat>)
    requires Begins(st, inv, ts) && EachInterrupted(st, inv, budgets)
    ensures Underway(st, inv, ts, Crashes(st, inv, budgets))
    decreases |budgets|
  {
    if budgets == [] {
    } else {
      var x := Crashes(st, inv, budgets[..|budgets| - 1]);
      CrashesStayUnderway(st, inv, ts, budgets[..|budgets| - 1]);
      assert x.history != [];
      hide Inv, Underway, RunOnce;
      CrashStaysUnderway(st, inv, ts, x, budgets[|budgets| - 1]);
    }
  }

  /** Crash replay. Run one request any number of times, each run dying at any step. What has been
      committed is always a leading part of the one journalled plan. Run it once more undisturbed: it is
      admitted, commits exactly the missing rest, completes the attempt, and if the review ended its
      receipt is the one derived from the terminal authority. */
  lemma {:induction false} RetryFinishes(st: Store, inv: Invocation, ts: seq<Transition>, budgets: seq<nat>)
    requires Begins(st, inv, ts) && EachInterrupted(st, inv, budgets)
    ensures var x := Crashes(st, inv, budgets);
            var k := Committing(st, x);
            x.history != [] && k <= |ts| && x.history == st.history + States(ts[..k]) &&
            var run := FinalizeRun(x, Again(inv, x));
            var y := Perform(x, run.ops);
            run.outcome.Done? && y.history == x.history + States(ts[k..]) && y.history == st.history + States(ts) &&
            PendingIndex(y.journal) == |y.journal| &&
            (Terminal(Final(Current(st), ts)) ==> y.receipt == Some(ReceiptOf(Final(Current(st), ts))))
  {
    hide Inv, PlanOf, Owed, Again, FinalizeRun, Crashes, EachInterrupted, States, Settled, Perform;
    var x := Crashes(st, inv, budgets);
    var k := Committing(st, x);
    CrashesStayUnderway(st, inv, ts, budgets);
    FinishFrom(st, inv, ts, x);
  }

  lemma {:induction false} FinishFrom(st: Store, inv: Invocation, ts: seq<Transition>, x: Store)
    requires Underway(st, inv, ts, x)
    ensures var k := Committing(st, x);
            x.history != [] && k <= |ts| && x.history == st.history + States(ts[..k]) &&
            var run := FinalizeRun(x, Again(inv, x));
            var y := Perform(x, run.ops);
            run.outcome.Done? && y.history == x.history + States(ts[k..]) && y.history == st.history + States(ts) &&
            PendingIndex(y.journal) == |y.journal| &&
            (Terminal(Final(Current(st), ts)) ==> y.receipt == Some(ReceiptOf(Final(Current(st), ts))))
  {
    hide Inv, PlanOf, Owed, Again, FinalizeRun, States, Settled, Perform, ReceiptOf;
    var k := Committing(st, x);
    var run := FinalizeRun(x, Again(inv, x));
    var y := Perform(x, run.ops);
    AgainIsAdmitted(st, inv, ts, x);
    AgainOwesSame(inv, x);
    RunIsSound(x, Again(inv, x));
    UnderwayHistory(st, inv, ts, x);
    assert ts[..k] + ts[k..] == ts;
    StatesConcat(st.history, ts[..k], ts[k..]);
    assert Settled(x, y, ts[k..]);
    SettledEnds(st, y, x, ts, ts[k..]);
  }
}
