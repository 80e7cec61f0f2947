/**
 The FINALIZE run as the code performs it, on a store it updates in place.

 `budget` is how many more durable steps the process survives. The method is proved to perform exactly
 the steps of FinalizeRun, up to the crash, and to report its outcome.
 */
module FinalizeRunner {
  import opened Wrappers
  import Crash
  import opened FinalizePlan
  import opened FinalizeJournal
  import opened FinalizeCrash
  import opened FinalizeRuns

  predicate BeginsAt(st: Store, s: Authority) {
    st.history != [] && Current(st) == s
  }

  // Every transition of the plan leads somewhere else.
  predicate Moves(s: Authority, ts: seq<Transition>) {
    forall j :: 0 <= j < |ts| ==> ts[j].state != After(s, ts, j)
  }

  // A swap on the current revision, to somewhere else, takes effect.
  lemma CommitSucceeds(st: Store, s: Authority, next: Authority)
    requires BeginsAt(st, s) && next != s
    ensures Apply(st, Commit(Revision(s), next)).history == st.history + [next]
  {
  }

  lemma {:induction false} CommitsExtend(st: Store, s: Authority, ts: seq<Transition>, k: nat)
    requires BeginsAt(st, s) && Moves(s, ts) && k <= |ts|
    ensures Perform(st, CommitOps(s, ts)[..k]).history == st.history + States(ts[..k])
    ensures BeginsAt(Perform(st, CommitOps(s, ts)[..k]), After(s, ts, k))
    decreases k
  {
    hide Apply, Perform, CommitOps, States, Moves, After, Coherent;
    var ops := CommitOps(s, ts);
    CommitOpsAre(s, ts);
    if k == 0 {
      NothingPerformed(st, ops);
      StatesGrow(ts, 0);
      AfterNothing(s, ts);
    } else {
      CommitsExtend(st, s, ts, k - 1);
      var x, next := Perform(st, ops[..k - 1]), ts[k - 1].state;
      OneMoreStep(st, ops, k - 1);
      Moving(s, ts, k - 1);
      CommitSucceeds(x, After(s, ts, k - 1), next);
      StatesGrow(ts, k);
    }
  }

  lemma Moving(s: Authority, ts: seq<Transition>, j: nat)
    requires Moves(s, ts) && j < |ts|
    ensures ts[j].state != After(s, ts, j) && After(s, ts, j + 1) == ts[j].state
  {
  }

  lemma AfterNothing(s: Authority, ts: seq<Transition>)
    ensures After(s, ts, 0) == s
  {
  }

  lemma CommitOpsAre(s: Authority, ts: seq<Transition>)
    ensures |CommitOps(s, ts)| == |ts|
    ensures forall j :: 0 <= j < |ts| ==> CommitOps(s, ts)[j] == Commit(Revision(After(s, ts, j)), ts[j].state)
  {
  }

  lemma StatesGrow(ts: seq<Transition>, k: nat)
    requires k <= |ts|
    ensures k == 0 ==> States(ts[..k]) == []
    ensures k > 0 ==> States(ts[..k]) == States(ts[..k - 1]) + [ts[k - 1].state]
  {
  }

  lemma NothingPerformed(st: Store, ops: seq<StoreOp>)
    ensures Perform(st, ops[..0]) == st
  {
    assert ops[..0] == [];
  }

  lemma OneMoreStep(st: Store, ops: seq<StoreOp>, k: nat)
    requires k < |ops|
    ensures Perform(st, ops[..k + 1]) == Apply(Perform(st, ops[..k]), ops[k])
  {
    hide Apply;
    Crash.StepAppends(Apply, st, ops, k);
  }

  class Runner {
    var store: Store
    var budget: nat
    var committed: nat  // transitions this run has committed: the progress record

    constructor (store: Store, budget: nat)
      ensures this.store == store && this.budget == budget && committed == 0
    {
      this.store := store;
      this.budget := budget;
      committed := 0;
    }

    // `ops` was performed from `before`, up to the crash.
    ghost predicate Performed(before: Store, allowed: nat, ops: seq<StoreOp>)
      reads this
    {
      store == Perform(before, Crash.Cut(ops, allowed)) && budget == (if allowed < |ops| then 0 else allowed - |ops|)
    }

    method Do(op: StoreOp) returns (alive: bool)
      modifies this`store, this`budget
      ensures alive == (old(budget) > 0)
      ensures alive ==> store == Apply(old(store), op) && budget == old(budget) - 1
      ensures !alive ==> store == old(store) && budget == 0
    {
      alive := budget > 0;
      if alive {
        store := Apply(store, op);
        budget := budget - 1;
      }
    }

    // One more step of a list whose first k steps are done.
    method DoNext(ghost before: Store, ghost allowed: nat, ghost ops: seq<StoreOp>, ghost k: nat,
                  op: StoreOp) returns (alive: bool)
      requires k < |ops| && ops[k] == op && k <= allowed
      requires store == Perform(before, ops[..k]) && budget == allowed - k
      modifies this`store, this`budget
      ensures alive ==> k < allowed && store == Perform(before, ops[..k + 1]) && budget == allowed - k - 1
      ensures !alive ==> allowed == k && Performed(before, allowed, ops)
    {
      alive := Do(op);
      Crash.StepAppends(Apply, before, ops, k);
    }

    // Every transition is journalled before any is committed.
    method JournalPlan(r: Request, s: Authority, ts: seq<Transition>) returns (alive: bool)
      modifies this`store, this`budget
      ensures Performed(old(store), old(budget), NoteOps(r, s, ts)) && alive == (old(budget) >= |ts|)
    {
      ghost var before, allowed, ops := store, budget, NoteOps(r, s, ts);
      assert ops[..0] == [] && Perform(before, []) == before;
      var expected := Revision(s);
      for k := 0 to |ts|
        invariant k <= allowed && store == Perform(before, ops[..k]) && budget == allowed - k
        invariant expected == Revision(After(s, ts, k))
      {
        var planned := Revision(ts[k].state);
        alive := DoNext(before, allowed, ops, k, Note(r, Noted(ts[k].op, expected, planned)));
        if !alive { return; }
        expected := planned;
      }
      assert ops[..|ts|] == ops;
      alive := true;
    }

    // Each transition is committed by compare-and-swap on the revision the previous one produced. From the
    // authority the plan begins with, every swap that is counted succeeds.
    method CommitPlan(s: Authority, ts: seq<Transition>) returns (alive: bool)
      modifies this
      ensures BeginsAt(old(store), s) && Moves(s, ts) ==>
                old(committed) <= committed && committed - old(committed) <= |ts| &&
                store.history == old(store).history + States(ts[..committed - old(committed)])
      ensures Performed(old(store), old(budget), CommitOps(s, ts)) && alive == (old(budget) >= |ts|)
      ensures committed == old(committed) + (if old(budget) < |ts| then old(budget) else |ts|)
    {
      ghost var before, allowed, ops := store, budget, CommitOps(s, ts);
      assert ops[..0] == [] && Perform(before, []) == before;
      var state := s;
      for k := 0 to |ts|
        invariant k <= allowed && store == Perform(before, ops[..k]) && budget == allowed - k
        invariant state == After(s, ts, k) && committed == old(committed) + k
      {
        alive := DoNext(before, allowed, ops, k, Commit(Revision(state), ts[k].state));
        if !alive {
          if BeginsAt(before, s) && Moves(s, ts) { CommitsExtend(before, s, ts, k); }
          return;
        }
        committed := committed + 1;
        state := ts[k].state;
      }
      assert ops[..|ts|] == ops;
      if BeginsAt(before, s) && Moves(s, ts) { CommitsExtend(before, s, ts, |ts|); }
      alive := true;
    }

    // Publish the receipt of a terminal authority, mark it, complete the attempt.
    method Close(r: Request, t: Authority) returns (alive: bool)
      modifies this`store, this`budget
      ensures Performed(old(store), old(budget), CloseOps(r, t)) && alive == (old(budget) >= |CloseOps(r, t)|)
    {
      ghost var before, allowed, ops := store, budget, CloseOps(r, t);
      assert ops[..0] == [] && Perform(before, []) == before;
      ghost var k := 0;
      if Terminal(t) {
        alive := DoNext(before, allowed, ops, 0, PublishReceipt(ReceiptOf(t)));
        if !alive { return; }
        alive := DoNext(before, allowed, ops, 1, MarkReceipt(r));
        if !alive { return; }
        k := 2;
      }
      alive := DoNext(before, allowed, ops, k, Complete(r));
      assert ops[..k + 1] == ops;
    }

    // Performing one list and then, if still alive, another, is performing their concatenation.
    ghost method Joined(before: Store, allowed: nat, first: seq<StoreOp>, mid: Store, left: nat, second: seq<StoreOp>)
      requires allowed >= |first| && mid == Perform(before, first) && left == allowed - |first|
      requires Performed(mid, left, second)
      ensures Performed(before, allowed, first + second)
    {
      Crash.RunConcat(Apply, before, first, Crash.Cut(second, left));
      assert Crash.Cut(first + second, allowed) == first + Crash.Cut(second, left);
    }

    ghost method CutShort(before: Store, allowed: nat, first: seq<StoreOp>, second: seq<StoreOp>)
      requires allowed < |first| && Performed(before, allowed, first)
      ensures Performed(before, allowed, first + second)
    {
      assert Crash.Cut(first + second, allowed) == Crash.Cut(first, allowed);
    }

    method Execute(r: Request, s: Authority, ts: seq<Transition>) returns (alive: bool)
      modifies this
      ensures Performed(old(store), old(budget), ExecuteOps(r, s, ts))
      ensures alive == (old(budget) >= |ExecuteOps(r, s, ts)|)
    {
      ghost var before, allowed := store, budget;
      ghost var notes, commits, closes := NoteOps(r, s, ts), CommitOps(s, ts), CloseOps(r, Final(s, ts));
      assert ExecuteOps(r, s, ts) == notes + (commits + closes);
      alive := JournalPlan(r, s, ts);
      if !alive { CutShort(before, allowed, notes, commits + closes); return; }
      ghost var mid, left := store, budget;
      alive := CommitPlan(s, ts);
      if !alive {
        CutShort(mid, left, commits, closes);
        Joined(before, allowed, notes, mid, left, commits + closes);
        return;
      }
      ghost var mid2, left2 := store, budget;
      alive := Close(r, Final(s, ts));
      Joined(mid, left, commits, mid2, left2, closes);
      Joined(before, allowed, notes, mid, left, commits + closes);
    }

    method BeginAndExecute(r: Request, s: Authority, ts: seq<Transition>) returns (alive: bool)
      modifies this
      ensures Performed(old(store), old(budget), [Begin(r)] + ExecuteOps(r, s, ts))
      ensures alive == (old(budget) >= 1 + |ExecuteOps(r, s, ts)|)
    {
      ghost var before, allowed := store, budget;
      assert [Begin(r)][..0] == [] && Perform(before, []) == before;
      alive := DoNext(before, allowed, [Begin(r)], 0, Begin(r));
      assert [Begin(r)][..1] == [Begin(r)];
      if !alive { CutShort(before, allowed, [Begin(r)], ExecuteOps(r, s, ts)); return; }
      ghost var mid, left := store, budget;
      alive := Execute(r, s, ts);
      Joined(before, allowed, [Begin(r)], mid, left, ExecuteOps(r, s, ts));
    }

    method CompleteOnly(r: Request) returns (alive: bool)
      modifies this`store, this`budget
      ensures Performed(old(store), old(budget), [Complete(r)]) && alive == (old(budget) >= 1)
    {
      ghost var before, allowed := store, budget;
      assert [Complete(r)][..0] == [] && Perform(before, []) == before;
      alive := DoNext(before, allowed, [Complete(r)], 0, Complete(r));
      assert [Complete(r)][..1] == [Complete(r)];
    }

    ghost predicate Ran(before: Store, allowed: nat, run: RunPlan, out: Outcome)
      reads this
    {
      Performed(before, allowed, run.ops) && out == (if allowed < |run.ops| then Crashed else run.outcome)
    }

    // The run of a request given only the lineage, on a terminal authority.
    method FinishTerminal(inv: Invocation) returns (out: Outcome)
      requires store.history != []
      modifies this
      ensures Ran(old(store), old(budget), TerminalRun(old(store), inv), out)
    {
      var s, k := Current(store), PendingIndex(store.journal);
      assert Perform(store, []) == store;
      if !inv.bare { return Refused("terminal review finalize accepts no review inputs"); }
      if store.receipt.Some? && store.receipt.value != ReceiptOf(s) { return Refused("receipt conflict"); }
      var alive := true;
      if store.receipt.Some? {
        if k < |store.journal| { alive := CompleteOnly(store.journal[k].request); }
        return if alive then Done else Crashed;
      }
      if k < |store.journal| {
        alive := Close(store.journal[k].request, s);
      } else {
        var r := MakeRequest(s, s.candidate, inv.inputs.evidence, inv.inputs);
        match Reconcile(store.journal, r, s, 0) {
          case Mismatch => return Refused("request mismatch");
          case Fresh =>
            assert ExecuteOps(r, s, []) == CloseOps(r, s);
            alive := BeginAndExecute(r, s, []);
          case Resume(j) =>
            if j >= |store.journal| { return Refused("no such attempt"); }
            alive := Close(store.journal[j].request, s);
        }
      }
      return if alive then Done else Crashed;
    }

    // A replay standing at the transition `at` of a journalled attempt.
    method Replay(k: nat, at: nat, i: Inputs) returns (out: Outcome)
      requires store.history != [] && k < |store.journal| && Coherent(Current(store))
      modifies this
      ensures Ran(old(store), old(budget), ReplayRun(old(store), k, at, i), out)
    {
      var s := Current(store);
      assert Perform(store, []) == store;
      var evidence := EvidenceFor(s, i);
      if evidence.Err? { return Refused(evidence.reason); }
      var admission := Reconcile(store.journal, MakeRequest(s, s.candidate, evidence.value, i), s, 0);
      if admission.Mismatch? { return Refused("request mismatch"); }
      if admission.Fresh? || admission.index >= |store.journal| { return Refused("no such attempt"); }
      var attempt := store.journal[admission.index];
      var alive;
      if at == |attempt.transitions| - 1 {
        alive := CompleteOnly(attempt.request);
      } else {
        var plan := PreparePlan(s, i);
        if plan.Err? { return Refused(plan.reason); }
        alive := Execute(attempt.request, s, plan.value.transitions);
      }
      return if alive then Done else Crashed;
    }

    /** One FINALIZE run. It performs the steps of FinalizeRun, up to the crash; so whatever the crash
        point, it commits a leading part of what was owed and nothing else, and a run that reports Done
        has committed all of it and left nothing pending. */
    method Finalize(inv: Invocation) returns (out: Outcome)
      requires Inv(store)
      modifies this
      ensures Ran(old(store), old(budget), FinalizeRun(old(store), inv), out)
      ensures Within(old(store), store, Owed(old(store), inv.inputs))
      ensures out == Done ==> Settled(old(store), store, Owed(old(store), inv.inputs))
    {
      ghost var before, allowed := store, budget;
      RunAtCrash(before, Event(inv, allowed));
      RunIsSound(before, inv);
      out := Attempt(inv);
    }

    method Attempt(inv: Invocation) returns (out: Outcome)
      requires store.history != [] && Coherent(Current(store))
      modifies this
      ensures Ran(old(store), old(budget), FinalizeRun(old(store), inv), out)
    {
      var s, k := Current(store), PendingIndex(store.journal);
      assert Perform(store, []) == store;
      if Terminal(s) {
        out := FinishTerminal(inv);
        return;
      }
      var at := if k < |store.journal| then StandsAt(store.journal[k], s) else 0;
      if k < |store.journal| && at < |store.journal[k].transitions| {
        out := Replay(k, at, inv.inputs);
        return;
      }
      if k == |store.journal| && !inv.valid { return Refused("snapshot validation failed"); }
      var plan := PreparePlan(s, inv.inputs);
      if plan.Err? { return Refused(plan.reason); }
      var ts := plan.value.transitions;
      if k == |store.journal| && ts == [] { return Done; }
      var r := MakeRequest(s, plan.value.candidate, plan.value.evidence, inv.inputs);
      var admission := Reconcile(store.journal, r, s, 0);
      if admission.Mismatch? { return Refused("request mismatch"); }
      var alive;
      if admission.Fresh? {
        alive := BeginAndExecute(r, s, ts);
      } else if admission.index < |store.journal| {
        alive := Execute(store.journal[admission.index].request, s, ts);
      } else {
        return Refused("no such attempt");
      }
      return if alive then Done else Crashed;
    }
  }
}
