/**
 Whole histories of one lineage: FINALIZE runs with any inputs, each cut off after any durable step.
 */
module FinalizeRuns {
  import opened Wrappers
  import Crash
  import opened FinalizePlan
  import opened FinalizeJournal
  import opened FinalizeCrash

  // How many transitions of an attempt are behind the current authority, read off the journal alone.
  function Position(a: Attempt, s: Authority): nat {
    if StandsAt(a, s) < |a.transitions| then StandsAt(a, s) + 1 else 0
  }

  // What a run may commit: what is left of the plan the pending attempt was begun with, or the plan
  // of the run's own request when nothing is pending.
  ghost function Owed(st: Store, i: Inputs): seq<Transition>
    requires st.history != []
  {
    var s, k := Current(st), PendingIndex(st.journal);
    if Terminal(s) then []
    else if k < |st.journal| then
      var a := st.journal[k];
      if PlannedBy(a.request).Ok? && Position(a, s) <= |PlannedBy(a.request).value|
      then PlannedBy(a.request).value[Position(a, s)..] else []
    else if PlanOf(s, i).Ok? then PlanOf(s, i).value else []
  }

  lemma PositionIs(st: Store, a: Attempt, k: nat)
    requires Open(st, a, k)
    ensures st.history != [] && Current(st) == After(a.request.expected.of, PlannedBy(a.request).value, k)
    ensures Position(a, Current(st)) == k
  {
    var s, ts := a.request.expected.of, PlannedBy(a.request).value;
    var t := After(s, ts, k);
    assert st.history[|st.history| - 1 - k + k] == t;
    hide PlanFrom, HistoryClimbs, EndsWith, Inv, Distinct;
    forall j | 0 <= j < |a.transitions| && j != k - 1 ensures a.transitions[j].revision != Revision(t) {
      assert a.transitions[j] == NotedAt(s, ts, j);
      if j + 1 < k {
        PlanClimbs(MayComplete(s), s, InputsOf(a.request), j + 1, k);
      } else {
        PlanClimbs(MayComplete(s), s, InputsOf(a.request), k, j + 1);
      }
    }
    if k > 0 { assert a.transitions[k - 1] == NotedAt(s, ts, k - 1); }
  }

  // The pending attempt is the last one, and it is open at its position.
  lemma PendingIsOpen(st: Store)
    requires Inv(st) && PendingIndex(st.journal) < |st.journal|
    ensures PendingIndex(st.journal) == |st.journal| - 1
    ensures st.history != [] &&
            Open(st, st.journal[|st.journal| - 1], Position(st.journal[|st.journal| - 1], Current(st)))
  {
    var a := st.journal[|st.journal| - 1];
    assert PendingIndex(st.journal) == |st.journal| - 1;
    hide HistoryClimbs, Distinct, AttemptAt, PlannedBy, Position;
    assert Resumable(st, a);
    var k :| AttemptAt(st, a, k);
    assert Open(st, a, k);
    PositionIs(st, a, k);
  }

  // No completed attempt is resumed while the authority is still moving.
  lemma CompletedNeverMatches(st: Store, r: Request, j: nat)
    requires Inv(st) && j < |st.journal| && st.journal[j].completed && !Terminal(Current(st))
    requires r.expected == Revision(Current(st))
    ensures st.journal[j].request != r
  {
    assert Behind(st.journal[j], Current(st));
  }

  lemma InvHasHistory(st: Store)
    requires Inv(st)
    ensures st.history != []
  {
  }

  predicate Knows(journal: seq<Attempt>, r: Request, k: nat) {
    exists j :: k <= j < |journal| && journal[j].request == r
  }

  /** Admission of any request, at any revision and even when the review has ended: the attempt journalled for
      exactly this request; or else a fresh one when nothing is pending; or else the pending one, if the
      payload is the same and was given at the entry revision or at a journalled one; or else a mismatch. */
  lemma {:induction false} AdmissionOfAny(st: Store, r: Request, k: nat)
    requires Inv(st) && k <= |st.journal|
    ensures st.history != []
    ensures var n := |st.journal|;
            var at := Reconcile(st.journal, r, Current(st), k);
            if Knows(st.journal, r, k) then at.Resume? && k <= at.index < n && st.journal[at.index].request == r
            else if k == n || st.journal[n - 1].completed then at == Fresh
            else at == if SamePayload(st.journal[n - 1].request, r) && MayResume(st.journal[n - 1], r, Current(st))
                       then Resume(n - 1) else Mismatch
    decreases |st.journal| - k
  {
    InvHasHistory(st);
    var n := |st.journal|;
    assert k < n - 1 ==> st.journal[k].completed;
    hide Inv, MayResume, SamePayload;
    if k < n {
      AdmissionOfAny(st, r, k + 1);
      if st.journal[k].request != r { assert Knows(st.journal, r, k) <==> Knows(st.journal, r, k + 1); }
    }
  }

  // Admission looks past completed attempts; what decides is the pending one.
  lemma {:induction false} AdmissionIs(st: Store, r: Request, k: nat)
    requires Inv(st) && k <= |st.journal| && !Terminal(Current(st)) && r.expected == Revision(Current(st))
    ensures var n := |st.journal|;
            var at := Reconcile(st.journal, r, Current(st), k);
            if k == n || st.journal[n - 1].completed then at == Fresh
            else at == if st.journal[n - 1].request == r
                          || (SamePayload(st.journal[n - 1].request, r) && MayResume(st.journal[n - 1], r, Current(st)))
                       then Resume(n - 1) else Mismatch
    decreases |st.journal| - k
  {
    if k < |st.journal| {
      if st.journal[k].completed { CompletedNeverMatches(st, r, k); }
      if k < |st.journal| - 1 {
        assert st.journal[k].completed;
        AdmissionIs(st, r, k + 1);
      }
    }
  }

  // ----- one run -----

  // From `st`, every crash point of `ops` keeps the invariant and commits a part of `owed` in order;
  // undisturbed, all of it is committed, nothing stays pending, and a terminal authority has its receipt.
  ghost predicate Sound(st: Store, ops: seq<StoreOp>, owed: seq<Transition>) {
    Crash.Always(Apply, st, ops, Inside(st, owed)) && Settled(st, Perform(st, ops), owed)
  }

  ghost predicate Settled(st: Store, x: Store, owed: seq<Transition>) {
    && Inv(x) && x.history == st.history + States(owed)
    && PendingIndex(x.journal) == |x.journal|
    && (Terminal(Current(x)) ==> x.receipt == Some(ReceiptOf(Current(x))))
  }

  lemma ClosedIsSettled(st: Store, x: Store, a: Attempt, ts: seq<Transition>, k: nat)
    requires k <= |ts| && Closed(Extended(st, ts, k, |ts| - k), x, a)
    ensures Settled(st, x, ts[k..])
  {
    hide HistoryClimbs, Distinct, Resumable;
    assert ts[k..k + (|ts| - k)] == ts[k..];
  }

  lemma StayingIsInside(st: Store, owed: seq<Transition>)
    requires Inv(st)
    ensures Inside(st, owed)(st)
  {
    hide Inv;
    assert Committed(st, st, owed, 0);
  }

  // A replay that stands where the plan ends only completes the attempt.
  lemma CompletingIsSound(st: Store, a: Attempt, k: nat)
    requires Open(st, a, k) && k == |PlannedBy(a.request).value|
    requires Terminal(Current(st)) ==> st.receipt.Some?
    ensures Sound(st, [Complete(a.request)], [])
  {
    CompletedKeepsInv(st, a, k);
    var x := Apply(st, Complete(a.request));
    assert Inv(st);
    hide Inv, AttemptAt, PlannedBy, Apply;
    StayingIsInside(st, []);
    assert Committed(st, x, [], 0);
    OneStep(st, Complete(a.request), Inside(st, []));
    assert x.history == st.history + States([]);
    assert Settled(st, x, []) by { CompletedIsSettled(st, a); }
  }

  lemma CompletedIsSettled(st: Store, a: Attempt)
    requires st.journal != [] && Inv(Journalled(st, a.(completed := true)))
    requires Terminal(Current(st)) ==> st.receipt.Some?
    ensures Settled(st, Journalled(st, a.(completed := true)), [])
  {
    hide HistoryClimbs, Distinct, Resumable;
    var x := Journalled(st, a.(completed := true));
    assert x.history == st.history + States([]);
  }

  lemma {:induction false} ExecutingIsSound(st: Store, a: Attempt, k: nat, s: Authority, ts: seq<Transition>)
    requires Open(st, a, k) && s == a.request.expected.of && PlannedBy(a.request) == Ok(ts) && k <= |ts|
    ensures Sound(st, ExecuteOps(a.request, After(s, ts, k), ts[k..]), ts[k..])
  {
    hide Inv, AttemptAt, Open, Closed, PlannedBy, ExecuteOps, Settled;
    ExecutingIsSafe(st, a, k, s, ts);
    ClosedIsSettled(st, Perform(st, ExecuteOps(a.request, After(s, ts, k), ts[k..])), a, ts, k);
  }

  lemma OpenIsPlanned(st: Store, a: Attempt, k: nat)
    requires Open(st, a, k)
    ensures Inv(st) && st.history != [] && st.journal != [] && a == st.journal[|st.journal| - 1] && !a.completed
    ensures PlannedBy(a.request).Ok? && k <= |PlannedBy(a.request).value| && Coherent(a.request.expected.of)
    ensures k > 0 ==> |a.transitions| == |PlannedBy(a.request).value|
  {
    hide HistoryClimbs, Distinct, Resumable, PlannedBy, Coherent;
    InvHasHistory(st);
  }

  // A replay of the pending attempt, standing at a journalled transition.
  lemma {:induction false} ReplayIsSound(st: Store, a: Attempt, k: nat, i: Inputs)
    requires Open(st, a, k) && 0 < k && !Terminal(Current(st))
    ensures var run := ReplayRun(st, |st.journal| - 1, k - 1, i);
            if run.outcome.Done? then Sound(st, run.ops, PlannedBy(a.request).value[k..]) else run.ops == []
  {
    hide Inv, AttemptAt, Open, PlanOf, PlannedBy, StandsAt, ExecuteOps, Sound, Position;
    OpenIsPlanned(st, a, k);
    var s, ts := a.request.expected.of, PlannedBy(a.request).value;
    var t := Current(st);
    PositionIs(st, a, k);
    if EvidenceFor(t, i).Ok? {
      var r := MakeRequest(t, t.candidate, EvidenceFor(t, i).value, i);
      AdmissionIs(st, r, 0);
      if Reconcile(st.journal, r, t, 0) == Resume(|st.journal| - 1) {
        if k == |ts| {
          assert ts[k..] == [];
          CompletingIsSound(st, a, k);
        } else {
          assert r.expected == Revision(t);
          assert SamePayload(a.request, r);
          ReplayPlansRest(a.request, k, i);
          ExecutingIsSound(st, a, k, s, ts);
        }
      }
    }
  }

  // A run that finds the pending attempt with nothing committed yet.
  lemma RestartIsSound(st: Store, a: Attempt, i: Inputs, ts: seq<Transition>)
    requires Open(st, a, 0) && !Terminal(Current(st)) && PlanOf(Current(st), i) == Ok(ts)
    ensures var s := Current(st);
            var r := MakeRequest(s, Final(s, ts).candidate, PlanEvidence(s, ts, i), i);
            var at := Reconcile(st.journal, r, s, 0);
            at == Mismatch ||
            (at == Resume(|st.journal| - 1) && r == a.request && PlannedBy(a.request) == Ok(ts) &&
             Sound(st, ExecuteOps(a.request, s, ts), ts))
  {
    PositionIs(st, a, 0);
    var s := Current(st);
    var r := MakeRequest(s, Final(s, ts).candidate, PlanEvidence(s, ts, i), i);
    assert Inv(st) && a == st.journal[|st.journal| - 1] && !a.completed && Coherent(s) && s == a.request.expected.of;
    AdmissionIs(st, r, 0);
    hide Inv, AttemptAt, Open, PlanOf, StandsAt, ExecuteOps, Sound, PlanEvidence;
    if Reconcile(st.journal, r, s, 0) != Mismatch {
      assert r == a.request;
      RequestDeterminesPlan(s, i);
      ExecutingIsSound(st, a, 0, s, ts);
      assert ts[0..] == ts;
    }
  }

  lemma {:induction false} FreshIsNew(journal: seq<Attempt>, r: Request, s: Authority, k: nat)
    requires k <= |journal| && Reconcile(journal, r, s, k) == Fresh
    ensures forall j :: k <= j < |journal| ==> journal[j].request != r && journal[j].completed
    decreases |journal| - k
  {
    if k < |journal| { FreshIsNew(journal, r, s, k + 1); }
  }

  lemma BegunKeepsInv(st: Store, r: Request, s: Authority, ts: seq<Transition>)
    requires Inv(st) && s == Current(st) && Reconcile(st.journal, r, s, 0) == Fresh
    requires r.expected == Revision(s) && PlannedBy(r) == Ok(ts) && (ts == [] ==> Terminal(s))
    ensures var a := Attempt(r, [], false, false);
            var x := st.(journal := st.journal + [a]);
            Apply(st, Begin(r)) == x && Open(x, a, 0)
  {
    FreshIsNew(st.journal, r, s, 0);
    assert Coherent(s);
    hide HistoryClimbs, PlannedBy, PlanFrom, Reconcile;
    var a := Attempt(r, [], false, false);
    var x := st.(journal := st.journal + [a]);
    assert Distinct(x.journal);
    assert AttemptAt(x, a, 0) by {
      assert NotedPlan(s, ts)[..0] == [];
      assert x.history[|x.history| - 1] == After(s, ts, 0);
    }
    assert Resumable(x, a);
  }

  lemma BeginningIsSound(st: Store, r: Request, s: Authority, ts: seq<Transition>)
    requires Inv(st) && s == Current(st) && Reconcile(st.journal, r, s, 0) == Fresh
    requires r.expected == Revision(s) && PlannedBy(r) == Ok(ts) && (ts == [] ==> Terminal(s))
    ensures Sound(st, [Begin(r)] + ExecuteOps(r, s, ts), ts)
  {
    BegunKeepsInv(st, r, s, ts);
    StayingIsInside(st, ts);
    var a := Attempt(r, [], false, false);
    var x := Apply(st, Begin(r));
    hide Inv, AttemptAt, Open, PlannedBy, ExecuteOps, Apply, Reconcile;
    ExecutingIsSound(x, a, 0, s, ts);
    assert ts[0..] == ts && After(s, ts, 0) == s;
    SameHistorySameWithin(st, x, ts);
    hide Inside;
    assert Inside(x, ts)(x) by { AlwaysNow(x, ExecuteOps(r, s, ts), Inside(x, ts)); }
    assert Inside(st, ts)(x);
    OneStep(st, Begin(r), Inside(st, ts));
    SafeThen(st, x, [Begin(r)], ExecuteOps(r, s, ts), Inside(st, ts), Inside(x, ts));
  }

  lemma AlwaysNow(st: Store, ops: seq<StoreOp>, P: Store -> bool)
    requires Crash.Always(Apply, st, ops, P)
    ensures P(st)
  {
  }

  lemma TerminalIsFullyCommitted(st: Store, a: Attempt, k: nat)
    requires Open(st, a, k) && Terminal(Current(st))
    ensures k == |PlannedBy(a.request).value|
  {
    PositionIs(st, a, k);
    if k < |PlannedBy(a.request).value| { StillOpen(a.request.expected.of, InputsOf(a.request), k); }
  }

  lemma IdleIsSound(st: Store)
    requires Inv(st) && PendingIndex(st.journal) == |st.journal|
    requires Terminal(Current(st)) ==> st.receipt.Some?
    ensures Sound(st, [], [])
  {
    StayingIsInside(st, []);
    assert st.history == st.history + States([]);
    assert Perform(st, []) == st;
    hide HistoryClimbs, Distinct, Resumable;
  }

  lemma ClosingIsSound(st: Store, a: Attempt, k: nat)
    requires Open(st, a, k) && Terminal(Current(st))
    ensures Sound(st, CloseOps(a.request, Current(st)), [])
  {
    TerminalIsFullyCommitted(st, a, k);
    ClosingIsSafe(st, a, k);
    hide Inv, AttemptAt, Open, PlannedBy, CloseOps, Settled, Closed;
    var ops := CloseOps(a.request, Current(st));
    AtEndIsInside(st, [], 0);
    assert Extended(st, [], 0, 0) == st by { assert st.history + States([]) == st.history; }
    WeakenAlways(st, ops, Keeping(st.history), Inside(st, []));
    ClosedIsSettled(st, Perform(st, ops), a, [], 0);
  }

  lemma TerminalRunIsSound(st: Store, inv: Invocation)
    requires Inv(st) && Terminal(Current(st))
    ensures var run := TerminalRun(st, inv);
            if run.outcome.Done? then Sound(st, run.ops, []) else run.ops == []
    ensures TerminalRun(st, inv).outcome.Done? <==> inv.bare
  {
    var s, k := Current(st), PendingIndex(st.journal);
    assert st.receipt.Some? ==> st.receipt.value == ReceiptOf(s);
    if k < |st.journal| {
      PendingIsOpen(st);
      var a := st.journal[k];
      hide Inv, Open, Sound;
      TerminalIsFullyCommitted(st, a, Position(a, s));
      if st.receipt.Some? { CompletingIsSound(st, a, Position(a, s)); }
      ClosingIsSound(st, a, Position(a, s));
    } else {
      if st.receipt.Some? {
        IdleIsSound(st);
      } else {
        assert st.journal == [];
        var r := MakeRequest(s, s.candidate, inv.inputs.evidence, inv.inputs);
        assert PlannedBy(r) == Ok([]);
        BeginningIsSound(st, r, s, []);
        assert ExecuteOps(r, s, []) == CloseOps(r, s);
      }
    }
  }

  lemma PendingRunIsSound(st: Store, inv: Invocation)
    requires Inv(st) && !Terminal(Current(st)) && PendingIndex(st.journal) < |st.journal|
    ensures var run := FinalizeRun(st, inv);
            if run.outcome.Done? then Sound(st, run.ops, Owed(st, inv.inputs)) else run.ops == []
  {
    var s, a, i := Current(st), st.journal[PendingIndex(st.journal)], inv.inputs;
    PendingIsOpen(st);
    var at := Position(a, s);
    PositionIs(st, a, at);
    assert PlannedBy(a.request).Ok? && at <= |PlannedBy(a.request).value|;
    hide Inv, Open, Sound, AttemptAt, PlannedBy, PlanOf;
    if at > 0 {
      ReplayIsSound(st, a, at, i);
    } else if PlanOf(s, i).Ok? {
      RestartIsSound(st, a, i, PlanOf(s, i).value);
      assert PlannedBy(a.request).Ok? ==> PlannedBy(a.request).value[0..] == PlannedBy(a.request).value;
    }
  }

  lemma FreshRunIsSound(st: Store, inv: Invocation)
    requires Inv(st) && !Terminal(Current(st)) && PendingIndex(st.journal) == |st.journal|
    ensures var run := FinalizeRun(st, inv);
            if run.outcome.Done? then Sound(st, run.ops, Owed(st, inv.inputs)) else run.ops == []
  {
    var s, i := Current(st), inv.inputs;
    IdleIsSound(st);
    assert Coherent(s);
    hide Inv, Sound, PlanFrom;
    if PlanOf(s, i).Ok? && PlanOf(s, i).value != [] {
      var ts := PlanOf(s, i).value;
      var r := MakeRequest(s, Final(s, ts).candidate, PlanEvidence(s, ts, i), i);
      RequestDeterminesPlan(s, i);
      if Reconcile(st.journal, r, s, 0) == Fresh { BeginningIsSound(st, r, s, ts); }
      AdmissionIs(st, r, 0);
      LastIsCompleted(st.journal);
    }
  }

  lemma LastIsCompleted(journal: seq<Attempt>)
    requires PendingIndex(journal) == |journal|
    ensures journal != [] ==> journal[|journal| - 1].completed
  {
  }

  /** Any run, on any inputs: if it is admitted it is sound for what is owed, and otherwise it touches
      nothing. */
  lemma {:induction false} RunIsSound(st: Store, inv: Invocation)
    requires Inv(st)
    ensures var run := FinalizeRun(st, inv);
            if run.outcome.Done? then Sound(st, run.ops, Owed(st, inv.inputs)) else run.ops == []
  {
    hide Sound, Inv, PlanOf, PlannedBy, Position;
    InvHasHistory(st);
    if Terminal(Current(st)) { TerminalRunIsSound(st, inv); }
    else if PendingIndex(st.journal) < |st.journal| { PendingRunIsSound(st, inv); }
    else { FreshRunIsSound(st, inv); }
  }

  // ----- any number of runs -----

  // `budget` is the number of durable steps the process performs before it dies.
  datatype Event = Event(inv: Invocation, budget: nat)

  function RunOnce(st: Store, ev: Event): Store {
    if st.history == [] then st else Perform(st, Crash.Cut(FinalizeRun(st, ev.inv).ops, ev.budget))
  }

  function History(st: Store, events: seq<Event>): Store
    decreases |events|
  {
    if events == [] then st else RunOnce(History(st, events[..|events| - 1]), events[|events| - 1])
  }

  // A review as it is opened.
  function Opened(s: Authority): Store {
    Store([s], [], None)
  }

  /** One run with any inputs, cut off anywhere, commits a leading part of what is owed, in order, and
      nothing else; the invariant survives. */
  lemma RunAtCrash(st: Store, ev: Event)
    requires Inv(st)
    ensures Within(st, RunOnce(st, ev), Owed(st, ev.inv.inputs))
  {
    var run, owed := FinalizeRun(st, ev.inv), Owed(st, ev.inv.inputs);
    RunIsSound(st, ev.inv);
    StayingIsInside(st, owed);
    hide Inv, FinalizeRun, Owed, Settled;
    if run.outcome.Done? {
      Crash.AlwaysAtCrash(Apply, st, run.ops, Inside(st, owed), ev.budget);
    }
  }

  /** The invariant holds in every store that any runs can reach: the history strictly climbs, so no
      transition is committed twice; a pending attempt has committed a prefix of its journalled plan,
      after journalling all of it; a receipt on disk is the one derived from the terminal authority. */
  lemma {:induction false} ReachableInv(s: Authority, events: seq<Event>)
    requires Coherent(s)
    ensures Inv(History(Opened(s), events))
    decreases |events|
  {
    if events == [] {
    } else {
      ReachableInv(s, events[..|events| - 1]);
      hide Inv;
      RunAtCrash(History(Opened(s), events[..|events| - 1]), events[|events| - 1]);
    }
  }

  lemma TerminalRunKeepsHistory(st: Store, ev: Event)
    requires Inv(st) && Terminal(Current(st))
    ensures RunOnce(st, ev).history == st.history && Inv(RunOnce(st, ev))
  {
    hide HistoryClimbs, Distinct, Resumable, FinalizeRun;
    InvHasHistory(st);
    RunAtCrash(st, ev);
    assert Owed(st, ev.inv.inputs) == [];
    var j :| Committed(st, RunOnce(st, ev), [], j);
  }

  /** A terminal authority is never changed again, whatever is run. */
  lemma {:induction false} TerminalIsFrozen(st: Store, events: seq<Event>)
    requires Inv(st) && Terminal(Current(st))
    ensures History(st, events).history == st.history && Inv(History(st, events))
    decreases |events|
  {
    hide Inv, RunOnce, Terminal;
    if events != [] {
      TerminalIsFrozen(st, events[..|events| - 1]);
      TerminalRunKeepsHistory(History(st, events[..|events| - 1]), events[|events| - 1]);
    }
  }
}
