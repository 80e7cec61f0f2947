/**
 Crash replay of FINALIZE: what holds after any number of runs, each with any inputs and each cut off
 after any of its durable steps.
 */
module FinalizeCrash {
  import opened Wrappers
  import Crash
  import opened FinalizePlan
  import opened FinalizeJournal

  // The end of the history is the plan's entry followed by its first k authorities.
  ghost predicate EndsWith(history: seq<Authority>, s: Authority, ts: seq<Transition>, k: nat) {
    k <= |ts| && k < |history| &&
    forall j :: 0 <= j <= k ==> history[|history| - 1 - k + j] == After(s, ts, j)
  }

  // An open attempt has journalled a prefix of its plan, and committed a prefix of it - none before
  // all of it was journalled.
  ghost predicate AttemptAt(st: Store, a: Attempt, k: nat) {
    && Coherent(a.request.expected.of)
    && PlannedBy(a.request).Ok?
    && var s, ts := a.request.expected.of, PlannedBy(a.request).value;
    && (ts == [] ==> Terminal(s))
    && |a.transitions| <= |ts| && a.transitions == NotedPlan(s, ts)[..|a.transitions|]
    && EndsWith(st.history, s, ts, k)
    && (k > 0 ==> |a.transitions| == |ts|)
  }

  ghost predicate Resumable(st: Store, a: Attempt) {
    exists k :: AttemptAt(st, a, k)
  }

  ghost predicate HistoryClimbs(history: seq<Authority>) {
    && history != []
    && (forall j :: 0 <= j < |history| ==> Coherent(history[j]))
    && (forall a, b :: 0 <= a < b < |history| ==> Rank(history[a]) < Rank(history[b]))
  }

  ghost predicate Distinct(journal: seq<Attempt>) {
    forall a, b :: 0 <= a < b < |journal| ==> journal[a].request != journal[b].request
  }

  // The authority has moved on from where the attempt began, for good.
  predicate Behind(a: Attempt, s: Authority) {
    Rank(a.request.expected.of) < Rank(s) || Terminal(s)
  }

  ghost predicate Inv(st: Store) {
    && HistoryClimbs(st.history)
    && Distinct(st.journal)
    && (forall a :: 0 <= a < |st.journal| - 1 ==> st.journal[a].completed)
    && (forall a :: 0 <= a < |st.journal| && st.journal[a].completed ==> Behind(st.journal[a], Current(st)))
    && (st.journal != [] && !st.journal[|st.journal| - 1].completed ==>
          Resumable(st, st.journal[|st.journal| - 1]))
    && (st.receipt.Some? ==> Terminal(Current(st)) && st.receipt.value == ReceiptOf(Current(st)))
    && (st.journal != [] && st.journal[|st.journal| - 1].completed && Terminal(Current(st)) ==> st.receipt.Some?)
  }

  // `x` has committed the first j of `ts` on top of `st`, and nothing else.
  ghost predicate Committed(st: Store, x: Store, ts: seq<Transition>, j: nat) {
    j <= |ts| && x.history == st.history + States(ts[..j])
  }

  function States(ts: seq<Transition>): seq<Authority> {
    seq(|ts|, j requires 0 <= j < |ts| => ts[j].state)
  }

  ghost predicate Within(st: Store, x: Store, ts: seq<Transition>) {
    Inv(x) && exists j :: Committed(st, x, ts, j)
  }

  ghost function Inside(st: Store, ts: seq<Transition>): Store -> bool {
    x => Within(st, x, ts)
  }

  ghost function Keeping(history: seq<Authority>): Store -> bool {
    x => Inv(x) && x.history == history
  }

  // ----- executing a plan for an open attempt -----

  lemma IndexOfLast(journal: seq<Attempt>, r: Request)
    requires journal != [] && journal[|journal| - 1].request == r
    requires Distinct(journal)
    ensures IndexOf(journal, r) == |journal| - 1
  {
  }

  lemma UpdateLastKeepsDistinct(journal: seq<Attempt>, a: Attempt)
    requires Distinct(journal) && journal != [] && a.request == journal[|journal| - 1].request
    ensures Distinct(journal[|journal| - 1 := a])
  {
    var after := journal[|journal| - 1 := a];
    forall b, c | 0 <= b < c < |after| ensures after[b].request != after[c].request {
      assert after[b].request == journal[b].request && after[c].request == journal[c].request;
    }
  }

  function Max(a: int, b: int): int { if a < b then b else a }

  // A plan's successive authorities have distinct revisions, so its journal entries are distinct.
  lemma NotedOnce(s: Authority, i: Inputs, m: nat, j: nat)
    requires PlanOf(s, i).Ok? && m <= j < |PlanOf(s, i).value|
    ensures var ts := PlanOf(s, i).value; NotedPlan(s, ts)[j] !in NotedPlan(s, ts)[..m]
  {
    var ts := PlanOf(s, i).value;
    forall a | 0 <= a < m ensures NotedPlan(s, ts)[a] != NotedPlan(s, ts)[j] {
      PlanClimbs(MayComplete(s), s, i, a + 1, j + 1);
    }
  }

  function Journalled(st: Store, a: Attempt): Store
    requires st.journal != []
  {
    st.(journal := st.journal[|st.journal| - 1 := a])
  }

  // Where one attempt stands while it is being executed: it is the last of the journal and open.
  ghost predicate Open(st: Store, a: Attempt, k: nat) {
    Inv(st) && st.journal != [] && a == st.journal[|st.journal| - 1] && !a.completed && AttemptAt(st, a, k)
  }

  lemma NoteStage(st: Store, a: Attempt, k: nat, m: nat)
    requires Open(st, a, k) && |a.transitions| <= m <= |PlannedBy(a.request).value|
    ensures var a' := a.(transitions := NotedPlan(a.request.expected.of, PlannedBy(a.request).value)[..m]);
            Open(Journalled(st, a'), a', k) && Within(st, Journalled(st, a'), PlannedBy(a.request).value[k..])
  {
    var s, ts := a.request.expected.of, PlannedBy(a.request).value;
    var a' := a.(transitions := NotedPlan(s, ts)[..m]);
    var x := Journalled(st, a');
    assert AttemptAt(x, a', k);
    assert Committed(st, x, ts[k..], 0);
  }

  // The store after j more journal entries were written for a plan that resumes at position k.
  ghost function NoteStageAt(st: Store, a: Attempt, k: nat, j: nat): Store
    requires Open(st, a, k) && k + j <= |PlannedBy(a.request).value|
  {
    if k > 0 || j <= |a.transitions| then st
    else Journalled(st, a.(transitions := NotedPlan(a.request.expected.of, PlannedBy(a.request).value)[..j]))
  }

  lemma NoteLast(st: Store, a: Attempt, n: Noted)
    requires st.journal != [] && a.request == st.journal[|st.journal| - 1].request
    requires Distinct(st.journal)
    ensures Apply(Journalled(st, a), Note(a.request, n)) == Journalled(st, NotedIn(a, n))
  {
    var x := Journalled(st, a);
    UpdateLastKeepsDistinct(st.journal, a);
    hide Distinct;
    IndexOfLast(x.journal, a.request);
    assert x.journal[|x.journal| - 1] == a;
  }

  lemma OpenHasNotedPrefix(st: Store, a: Attempt, k: nat)
    requires Open(st, a, k)
    ensures st.journal != [] && a == st.journal[|st.journal| - 1] && Distinct(st.journal)
    ensures PlannedBy(a.request).Ok?
    ensures var N := NotedPlan(a.request.expected.of, PlannedBy(a.request).value);
            && |a.transitions| <= |N| && a.transitions == N[..|a.transitions|]
            && (k > 0 ==> |a.transitions| == |PlannedBy(a.request).value|)
  {
    hide HistoryClimbs, Distinct;
  }

  lemma {:induction false} NoteStep(st: Store, a: Attempt, k: nat, j: nat)
    requires Open(st, a, k) && k + j < |PlannedBy(a.request).value|
    ensures var s, ts := a.request.expected.of, PlannedBy(a.request).value;
            Apply(NoteStageAt(st, a, k, j), Note(a.request, NotedAt(After(s, ts, k), ts[k..], j)))
              == NoteStageAt(st, a, k, j + 1)
  {
    hide Inv, AttemptAt, Open, Distinct, PlanFrom;
    OpenHasNotedPrefix(st, a, k);
    var s, ts := a.request.expected.of, PlannedBy(a.request).value;
    var N := NotedPlan(s, ts);
    var m := |a.transitions|;
    assert st.journal[|st.journal| - 1 := a] == st.journal && Journalled(st, a) == st;
    assert NotedAt(After(s, ts, k), ts[k..], j) == N[k + j];
    if k > 0 || j < m {
      NoteLast(st, a, N[k + j]);
      assert N[k + j] == a.transitions[k + j];
    } else {
      var aj := a.(transitions := N[..j]);
      NoteLast(st, aj, N[j]);
      NotedOnce(s, InputsOf(a.request), j, j);
      assert N[..j] + [N[j]] == N[..j + 1];
    }
  }

  lemma {:induction false} NotingIsSafe(st: Store, a: Attempt, k: nat)
    requires Open(st, a, k)
    ensures var s, ts := a.request.expected.of, PlannedBy(a.request).value;
            var ops := NoteOps(a.request, After(s, ts, k), ts[k..]);
            Crash.Always(Apply, st, ops, Inside(st, ts[k..])) &&
            Perform(st, ops) == NoteStageAt(st, a, k, |ts| - k)
  {
    var s, ts := a.request.expected.of, PlannedBy(a.request).value;
    var ops := NoteOps(a.request, After(s, ts, k), ts[k..]);
    var stages := seq(|ts| - k + 1, j requires 0 <= j < |ts| - k + 1 => NoteStageAt(st, a, k, j));
    forall j | 0 <= j < |ops| ensures Apply(stages[j], ops[j]) == stages[j + 1] {
      NoteStep(st, a, k, j);
    }
    forall j | 0 <= j <= |ops| ensures Within(st, stages[j], ts[k..]) {
      if k > 0 || j <= |a.transitions| {
        assert Committed(st, st, ts[k..], 0);
      } else {
        NoteStage(st, a, k, j);
      }
    }
    Crash.AlwaysByStages(Apply, st, ops, Inside(st, ts[k..]), stages);
  }

  // Committing the next j authorities of a plan keeps the history climbing along that plan.
  lemma HistoryFollowsPlan(h: seq<Authority>, s: Authority, i: Inputs, k: nat, j: nat)
    requires HistoryClimbs(h) && PlanOf(s, i).Ok? && Coherent(s) && EndsWith(h, s, PlanOf(s, i).value, k)
    requires k + j <= |PlanOf(s, i).value|
    ensures var ts := PlanOf(s, i).value;
            var h' := h + States(ts[k..k + j]);
            HistoryClimbs(h') && EndsWith(h', s, ts, k + j) && h'[|h'| - 1] == After(s, ts, k + j)
    decreases j
  {
    hide PlanFrom, HistoryClimbs;
    var ts := PlanOf(s, i).value;
    assert h[|h| - 1 - k + k] == After(s, ts, k);
    if j == 0 {
      assert h + States(ts[k..k]) == h;
    } else {
      HistoryFollowsPlan(h, s, i, k, j - 1);
      var before := h + States(ts[k..k + j - 1]);
      var next := ts[k + j - 1].state;
      assert States(ts[k..k + j]) == States(ts[k..k + j - 1]) + [next];
      assert h + States(ts[k..k + j]) == before + [next];
      PlanClimbs(MayComplete(s), s, i, k + j - 1, k + j);
      PlanLeavesReview(MayComplete(s), s, i, k + j);
      AppendClimbs(before, next);
      forall b | 0 <= b <= k + j ensures (before + [next])[|before| - (k + j) + b] == After(s, ts, b) {
        if b < k + j { assert before[|before| - 1 - (k + j - 1) + b] == After(s, ts, b); }
      }
    }
  }

  lemma AppendClimbs(h: seq<Authority>, next: Authority)
    requires HistoryClimbs(h) && Coherent(next) && Rank(h[|h| - 1]) < Rank(next)
    ensures HistoryClimbs(h + [next])
  {
  }

  function Extended(st: Store, ts: seq<Transition>, k: nat, j: nat): Store
    requires k + j <= |ts|
  {
    st.(history := st.history + States(ts[k..k + j]))
  }

  // An authority with transitions still to come is not terminal.
  lemma StillOpen(s: Authority, i: Inputs, k: nat)
    requires PlanOf(s, i).Ok? && k < |PlanOf(s, i).value|
    ensures !Terminal(After(s, PlanOf(s, i).value, k))
  {
    PlanUnfolds(MayComplete(s), s, i, k);
  }

  lemma {:induction false} CommitStage(st: Store, a: Attempt, k: nat, j: nat)
    requires Open(st, a, k) && k + j <= |PlannedBy(a.request).value|
    requires a.transitions == NotedPlan(a.request.expected.of, PlannedBy(a.request).value)
    ensures var ts := PlannedBy(a.request).value;
            var x := Extended(st, ts, k, j);
            Open(x, a, k + j) && Within(st, x, ts[k..]) && Current(x) == After(a.request.expected.of, ts, k + j)
  {
    var s, ts := a.request.expected.of, PlannedBy(a.request).value;
    hide PlanFrom, HistoryClimbs;
    var x := Extended(st, ts, k, j);
    HistoryFollowsPlan(st.history, s, InputsOf(a.request), k, j);
    assert AttemptAt(x, a, k + j);
    assert Resumable(x, a);
    assert ts[k..][..j] == ts[k..k + j];
    assert Committed(st, x, ts[k..], j);
    if j > 0 {
      assert st.history[|st.history| - 1 - k + k] == After(s, ts, k);
      PlanClimbs(MayComplete(s), s, InputsOf(a.request), k, k + j);
      StillOpen(s, InputsOf(a.request), k);
      assert st.receipt.None?;
    } else {
      assert x == st;
    }
  }

  lemma CommitStep(st: Store, s: Authority, i: Inputs, ts: seq<Transition>, k: nat, j: nat)
    requires HistoryClimbs(st.history) && Coherent(s) && PlanOf(s, i) == Ok(ts)
    requires k + j < |ts| && EndsWith(st.history, s, ts, k)
    ensures Apply(Extended(st, ts, k, j), Commit(Revision(After(After(s, ts, k), ts[k..], j)), ts[k..][j].state))
              == Extended(st, ts, k, j + 1)
  {
    hide PlanFrom, HistoryClimbs;
    HistoryFollowsPlan(st.history, s, i, k, j);
    PlanClimbs(MayComplete(s), s, i, k + j, k + j + 1);
    assert After(After(s, ts, k), ts[k..], j) == After(s, ts, k + j);
    assert States(ts[k..k + j + 1]) == States(ts[k..k + j]) + [ts[k + j].state];
  }

  lemma CommittingIsSafe(st: Store, a: Attempt, k: nat)
    requires Open(st, a, k)
    requires a.transitions == NotedPlan(a.request.expected.of, PlannedBy(a.request).value)
    ensures var s, ts := a.request.expected.of, PlannedBy(a.request).value;
            var ops := CommitOps(After(s, ts, k), ts[k..]);
            Crash.Always(Apply, st, ops, Inside(st, ts[k..])) &&
            Perform(st, ops) == Extended(st, ts, k, |ts| - k)
  {
    var s, ts := a.request.expected.of, PlannedBy(a.request).value;
    var ops := CommitOps(After(s, ts, k), ts[k..]);
    var stages := seq(|ts| - k + 1, j requires 0 <= j < |ts| - k + 1 => Extended(st, ts, k, j));
    forall j | 0 <= j < |ops| ensures Apply(stages[j], ops[j]) == stages[j + 1] {
      CommitStep(st, s, InputsOf(a.request), ts, k, j);
    }
    forall j | 0 <= j <= |ops| ensures Within(st, stages[j], ts[k..]) {
      CommitStage(st, a, k, j);
    }
    assert st.history + States(ts[k..k]) == st.history;
    Crash.AlwaysByStages(Apply, st, ops, Inside(st, ts[k..]), stages);
  }

  // An attempt whose plan is fully committed began below the current authority, or is terminal.
  lemma FullyCommitted(st: Store, a: Attempt, k: nat)
    requires Open(st, a, k) && k == |PlannedBy(a.request).value|
    ensures Behind(a, Current(st))
  {
    var s, ts := a.request.expected.of, PlannedBy(a.request).value;
    assert st.history[|st.history| - 1 - k + k] == After(s, ts, k);
    hide PlanFrom, HistoryClimbs;
    if k > 0 { PlanClimbs(MayComplete(s), s, InputsOf(a.request), 0, k); }
  }

  lemma CompletedKeepsInv(st: Store, a: Attempt, k: nat)
    requires Open(st, a, k) && k == |PlannedBy(a.request).value|
    requires Terminal(Current(st)) ==> st.receipt.Some?
    ensures Inv(Journalled(st, a.(completed := true)))
    ensures Apply(st, Complete(a.request)) == Journalled(st, a.(completed := true))
  {
    hide PlanFrom, PlannedBy, HistoryClimbs, AttemptAt, Distinct, Rank;
    FullyCommitted(st, a, k);
    IndexOfLast(st.journal, a.request);
    UpdateLastKeepsDistinct(st.journal, a.(completed := true));
  }

  lemma PublishedKeepsOpen(st: Store, a: Attempt, k: nat)
    requires Open(st, a, k) && Terminal(Current(st))
    ensures var x := Apply(st, PublishReceipt(ReceiptOf(Current(st))));
            Open(x, a, k) && x == st.(receipt := Some(ReceiptOf(Current(st))))
  {
    var x := Apply(st, PublishReceipt(ReceiptOf(Current(st))));
    assert AttemptAt(x, a, k);
    assert Resumable(x, a);
  }

  lemma {:induction false} MarkedKeepsOpen(st: Store, a: Attempt, k: nat)
    requires Open(st, a, k)
    ensures var a' := a.(receiptPublished := true);
            var x := Apply(st, MarkReceipt(a.request));
            x == Journalled(st, a') && Open(x, a', k)
  {
    var a' := a.(receiptPublished := true);
    IndexOfLast(st.journal, a.request);
    var x := Journalled(st, a');
    assert AttemptAt(x, a', k);
    assert Resumable(x, a');
  }

  // The attempt is completed, nothing else happened to the journal, and a terminal authority has its
  // receipt.
  ghost predicate Closed(st: Store, x: Store, a: Attempt) {
    && Inv(x) && x.history == st.history && |x.journal| == |st.journal| && x.journal != []
    && x.journal[|x.journal| - 1].request == a.request && x.journal[|x.journal| - 1].completed
    && (Terminal(Current(x)) ==> x.receipt == Some(ReceiptOf(Current(x))))
  }

  lemma {:induction false} TerminalClose(st: Store, a: Attempt, k: nat)
    requires Open(st, a, k) && k == |PlannedBy(a.request).value| && Terminal(Current(st))
    ensures var s1 := Apply(st, PublishReceipt(ReceiptOf(Current(st))));
            var s2 := Apply(s1, MarkReceipt(a.request));
            var s3 := Apply(s2, Complete(a.request));
            Keeping(st.history)(s1) && Keeping(st.history)(s2) && Keeping(st.history)(s3) && Closed(st, s3, a)
  {
    PublishedKeepsOpen(st, a, k);
    var s1 := Apply(st, PublishReceipt(ReceiptOf(Current(st))));
    MarkedKeepsOpen(s1, a, k);
    var s2 := Apply(s1, MarkReceipt(a.request));
    CompletedKeepsInv(s2, a.(receiptPublished := true), k);
    hide HistoryClimbs, AttemptAt, PlannedBy;
  }

  lemma OneStep(st: Store, op: StoreOp, P: Store -> bool)
    requires P(st) && P(Apply(st, op))
    ensures Crash.Always(Apply, st, [op], P) && Perform(st, [op]) == Apply(st, op)
  {
    hide Apply;
    Crash.AlwaysByStages(Apply, st, [op], P, [st, Apply(st, op)]);
  }

  lemma ThreeSteps(st: Store, o1: StoreOp, o2: StoreOp, o3: StoreOp, P: Store -> bool)
    requires P(st) && P(Apply(st, o1)) && P(Apply(Apply(st, o1), o2)) && P(Apply(Apply(Apply(st, o1), o2), o3))
    ensures Crash.Always(Apply, st, [o1, o2, o3], P)
    ensures Perform(st, [o1, o2, o3]) == Apply(Apply(Apply(st, o1), o2), o3)
  {
    hide Apply;
    var s1 := Apply(st, o1);
    var s2 := Apply(s1, o2);
    Crash.AlwaysByStages(Apply, st, [o1, o2, o3], P, [st, s1, s2, Apply(s2, o3)]);
  }

  lemma OpenKeeps(st: Store, a: Attempt, k: nat)
    requires Open(st, a, k)
    ensures st.history != [] && Inv(st) && Keeping(st.history)(st)
  {
  }

  lemma OpenClose(st: Store, a: Attempt, k: nat)
    requires Open(st, a, k) && k == |PlannedBy(a.request).value| && st.history != [] && !Terminal(Current(st))
    ensures var s1 := Apply(st, Complete(a.request));
            Keeping(st.history)(s1) && Closed(st, s1, a)
  {
    CompletedKeepsInv(st, a, k);
    hide Inv, AttemptAt, PlannedBy;
  }

  // Publishing the receipt, marking and completing change neither history nor plan.
  lemma ClosingIsSafe(st: Store, a: Attempt, k: nat)
    requires Open(st, a, k) && k == |PlannedBy(a.request).value|
    ensures st.history != []
    ensures Crash.Always(Apply, st, CloseOps(a.request, Current(st)), Keeping(st.history))
    ensures Closed(st, Perform(st, CloseOps(a.request, Current(st))), a)
  {
    OpenKeeps(st, a, k);
    hide Inv, AttemptAt, Keeping, Open, Closed, Apply, PlannedBy, Perform;
    var t, P := Current(st), Keeping(st.history);
    if Terminal(t) {
      TerminalClose(st, a, k);
      ThreeSteps(st, PublishReceipt(ReceiptOf(t)), MarkReceipt(a.request), Complete(a.request), P);
    } else {
      OpenClose(st, a, k);
      OneStep(st, Complete(a.request), P);
    }
  }

  lemma {:induction false} WeakenAlways(s: Store, ops: seq<StoreOp>, P: Store -> bool, Q: Store -> bool)
    requires Crash.Always(Apply, s, ops, P) && forall x :: P(x) ==> Q(x)
    ensures Crash.Always(Apply, s, ops, Q)
    decreases |ops|
  {
    if ops != [] { WeakenAlways(Apply(s, ops[0]), ops[1..], P, Q); }
  }

  lemma SafeThen(st: Store, mid: Store, first: seq<StoreOp>, second: seq<StoreOp>, P: Store -> bool, Q: Store -> bool)
    requires Crash.Always(Apply, st, first, P) && Perform(st, first) == mid
    requires Crash.Always(Apply, mid, second, Q) && forall x :: Q(x) ==> P(x)
    ensures Crash.Always(Apply, st, first + second, P)
    ensures Perform(st, first + second) == Perform(mid, second)
  {
    hide Apply;
    WeakenAlways(mid, second, Q, P);
    Crash.AlwaysConcat(Apply, st, first, second, P);
    Crash.RunConcat(Apply, st, first, second);
  }

  // Keeping the history a plan ends with is staying within the plan.
  lemma AtEndIsInside(st: Store, ts: seq<Transition>, k: nat)
    requires k <= |ts|
    ensures forall x :: Keeping(Extended(st, ts, k, |ts| - k).history)(x) ==> Inside(st, ts[k..])(x)
  {
    hide Inv;
    forall x | Keeping(Extended(st, ts, k, |ts| - k).history)(x) ensures Inside(st, ts[k..])(x) {
      assert ts[k..|ts|] == ts[k..][..|ts| - k];
      assert Committed(st, x, ts[k..], |ts| - k);
    }
  }

  lemma CommitThenCloseIsSafe(st: Store, a: Attempt, k: nat, s: Authority, ts: seq<Transition>)
    requires Open(st, a, k) && s == a.request.expected.of && PlannedBy(a.request) == Ok(ts) && k <= |ts|
    requires a.transitions == NotedPlan(s, ts)
    ensures var ops := CommitOps(After(s, ts, k), ts[k..]) + CloseOps(a.request, Final(After(s, ts, k), ts[k..]));
            Crash.Always(Apply, st, ops, Inside(st, ts[k..])) &&
            Closed(Extended(st, ts, k, |ts| - k), Perform(st, ops), a)
  {
    hide Inv, AttemptAt, Open, Closed, PlannedBy, Perform, Inside, Keeping, Within;
    var st2 := Extended(st, ts, k, |ts| - k);
    CommittingIsSafe(st, a, k);
    CommitStage(st, a, k, |ts| - k);
    ClosingIsSafe(st2, a, |ts|);
    AtEndIsInside(st, ts, k);
    assert Current(st2) == Final(After(s, ts, k), ts[k..]);
    SafeThen(st, st2, CommitOps(After(s, ts, k), ts[k..]), CloseOps(a.request, Current(st2)),
             Inside(st, ts[k..]), Keeping(st2.history));
  }

  lemma SameHistorySameWithin(st: Store, st1: Store, ts: seq<Transition>)
    requires st.history == st1.history
    ensures forall x :: Inside(st1, ts)(x) ==> Inside(st, ts)(x)
  {
    hide Inv;
    forall x | Inside(st1, ts)(x) ensures Inside(st, ts)(x) {
      var j :| Committed(st1, x, ts, j);
      assert Committed(st, x, ts, j);
    }
  }

  lemma ClosedTransfers(st1: Store, st: Store, x: Store, a1: Attempt, a: Attempt)
    requires Closed(st1, x, a1) && a1.request == a.request
    requires st1.history == st.history && |st1.journal| == |st.journal|
    ensures Closed(st, x, a)
  {
    hide Inv;
  }

  // Once everything is noted the attempt is still open, with the whole plan in the journal.
  lemma NotesLeaveOpen(st: Store, a: Attempt, k: nat)
    requires Open(st, a, k)
    ensures var s, ts := a.request.expected.of, PlannedBy(a.request).value;
            var a1 := a.(transitions := NotedPlan(s, ts));
            NoteStageAt(st, a, k, |ts| - k) == Journalled(st, a1) && Open(Journalled(st, a1), a1, k)
  {
    var s, ts := a.request.expected.of, PlannedBy(a.request).value;
    NoteStage(st, a, k, |ts|);
    assert NotedPlan(s, ts)[..|ts|] == NotedPlan(s, ts);
    assert st.journal[|st.journal| - 1 := a] == st.journal;
    if k > 0 || |ts| - k <= |a.transitions| {
      assert a.transitions == NotedPlan(s, ts);
    }
  }

  lemma OpenIsLast(st: Store, a: Attempt, k: nat)
    requires Open(st, a, k)
    ensures st.journal != [] && a == st.journal[|st.journal| - 1]
  {
  }

  /** Executing a plan for an open attempt keeps the invariant at every crash point, commits only what
      was left of the journalled plan and in its order, and, undisturbed, commits all of it. */
  lemma {:induction false} ExecutingIsSafe(st: Store, a: Attempt, k: nat, s: Authority, ts: seq<Transition>)
    requires Open(st, a, k) && s == a.request.expected.of && PlannedBy(a.request) == Ok(ts) && k <= |ts|
    ensures Crash.Always(Apply, st, ExecuteOps(a.request, After(s, ts, k), ts[k..]), Inside(st, ts[k..]))
    ensures Closed(Extended(st, ts, k, |ts| - k), Perform(st, ExecuteOps(a.request, After(s, ts, k), ts[k..])), a)
  {
    hide Inv, AttemptAt, Open, Within, Closed, PlanOf, PlannedBy, Perform, NoteOps, CommitOps, CloseOps, After, Final, NotedPlan;
    OpenIsLast(st, a, k);
    var a1 := a.(transitions := NotedPlan(s, ts));
    var st1 := Journalled(st, a1);
    var notes := NoteOps(a.request, After(s, ts, k), ts[k..]);
    var commits, closes := CommitOps(After(s, ts, k), ts[k..]), CloseOps(a.request, Final(After(s, ts, k), ts[k..]));
    NotingIsSafe(st, a, k);
    NotesLeaveOpen(st, a, k);
    CommitThenCloseIsSafe(st1, a1, k, s, ts);
    SameHistorySameWithin(st, st1, ts[k..]);
    SafeThen(st, st1, notes, commits + closes, Inside(st, ts[k..]), Inside(st1, ts[k..]));
    ClosedTransfers(Extended(st1, ts, k, |ts| - k), Extended(st, ts, k, |ts| - k), Perform(st1, commits + closes), a1, a);
    assert ExecuteOps(a.request, After(s, ts, k), ts[k..]) == notes + (commits + closes);
  }
}
