/**
 What the supervisor replies, and what each event changes: said of the world before it.
 */
module ReportAnswers {
  import opened Wrappers
  import opened ReviewArguments
  import opened FailureEnvelope
  import opened FailureAnswers
  import opened MutationTruth
  import M = MutationTruth

  /** The supervisor waits for a binding, a retry of the final verification, and a repair that is no preflight. */
  lemma JoinsIff(call: Call)
    ensures Joins(call) <==>
              call.op.BindSDD? || call.op.RetryFinalVerification? ||
              (call.op.Repair? && !AsksForPreflight(call.op, call.args))
  {
    hide MetadataOf, MayMutate, Parsed, ParsesTrue;
    OperationsAre(call.op, call.args);
  }

  lemma OneMore(call: Call, start: World, events: seq<Event>, ev: Event)
    ensures Interleaving(call, start, events + [ev]) ==
            var u := Interleaving(call, start, events); if Enabled(call, u, ev) then Next(call, u, ev) else u
  {
    hide Classify, Joins, FinalizeError, Unclassified;
    var all := events + [ev];
    assert all[..|all| - 1] == events && all[|all| - 1] == ev;
  }

  /** The result of a run is replied as it is: success without an error, unless the deadline has passed and the
      operation is no binding; then it is a timeout, of which nothing is known if the operation may mutate. */
  lemma {:induction false} ResultIsReplied(call: Call, start: World, events: seq<Event>)
    requires var u := Interleaving(call, start, events); u.at.Returned? && u.reply == NoReply
    ensures var u, reply := Interleaving(call, start, events), Interleaving(call, start, events + [TakeResult]).reply;
            && (reply == Success <==> u.at.result.None? && (!u.expired || call.op.BindSDD?))
            && (u.at.result.Some? ==> reply == Reported(Classify(call.op, call.args, call.argsDigest, u.at.result.value)))
            && (u.at.result.None? && u.expired && !call.op.BindSDD? ==>
                  && reply.Reported? && reply.failure.code == OperationTimeout
                  && reply.failure.outcome ==
                     if OnlyReads(call.op) || AsksForPreflight(call.op, call.args) then NotStarted else Unknown)
  {
    hide Classify, AsksForPreflight;
    OneMore(call, start, events, TakeResult);
    DeadlineIsTimeout(call);
  }

  /** At the deadline the reply of an operation that is not waited for is a timeout. With a transition published
      it says so and asks for the status of the review; without one, nothing is known if the operation may mutate. */
  lemma {:induction false} DeadlineIsReplied(call: Call, start: World, events: seq<Event>)
    requires var u := Interleaving(call, start, events); u.expired && u.reply == NoReply && !Joins(call)
    ensures var u, reply := Interleaving(call, start, events), Interleaving(call, start, events + [TimeOut]).reply;
            && reply.Reported?
            && (if u.published.Some? then
                  && reply.failure.code == GitTimedOut && reply.failure.phase == NativeCommitted
                  && reply.failure.outcome == Unknown && reply.failure.lineage == call.lineage
                  && reply.failure.next == ReviewStatus
                else
                  && reply.failure.code == OperationTimeout
                  && reply.failure.outcome ==
                     if OnlyReads(call.op) || AsksForPreflight(call.op, call.args) then NotStarted else Unknown)
  {
    hide Classify, AsksForPreflight, Joins;
    OneMore(call, start, events, TimeOut);
    JoinsIff(call);
    DeadlineIsTimeout(call);
    ProgressIsTimeout(call);
  }

  lemma DeadlineIsTimeout(call: Call)
    ensures var f := Classify(call.op, call.args, call.argsDigest, [DeadlineExceeded]);
            && f.code == OperationTimeout
            && (!call.op.BindSDD? ==>
                  f.outcome == if OnlyReads(call.op) || AsksForPreflight(call.op, call.args) then NotStarted else Unknown)
  {
    hide Classify, AsksForPreflight;
    var e: Error := [DeadlineExceeded];
    assert e[0] in e;
    assert CauseOf(e) == DeadlineExceeded by { assert Decisive(e).value in e; }
    OutcomeIs(call.op, call.args, call.argsDigest, e);
    CodeIs(call.op, call.args, call.argsDigest, e);
  }

  lemma ProgressIsTimeout(call: Call)
    ensures var f := Classify(call.op, call.args, call.argsDigest, [Progress(call.lineage), GitTimeout(true), DeadlineExceeded]);
            && f.code == GitTimedOut && f.phase == NativeCommitted && f.outcome == Unknown && f.lineage == call.lineage
            && f.next == ReviewStatus
  {
    hide Classify, AsksForPreflight;
    var e: Error := [Progress(call.lineage), GitTimeout(true), DeadlineExceeded];
    assert e[0] in e && e[1].GitTimeout?;
    assert CauseOf(e) == Progress(call.lineage) by { assert Decisive(e).value in e && Rank(Decisive(e).value) <= 6; }
    OutcomeIs(call.op, call.args, call.argsDigest, e);
    CodeIs(call.op, call.args, call.argsDigest, e);
    PhaseIs(call.op, call.args, call.argsDigest, e);
    NamesAre(call.op, call.args, call.argsDigest, e);
    NextIs(call.op, call.args, call.argsDigest, e);
  }

  // ----- what happens -----

  predicate Commits(w: World, ev: Event) {
    ev.Commit? && w.at.Between? && !w.terminal
  }

  predicate Fails(w: World, ev: Event) {
    || (ev.FailBetween? && w.at.Between? && FinalizeError(ev.error, w.terminal))
    || (ev.FailWritten? && w.at.Written? && Unclassified(ev.error))
  }

  predicate Replies(call: Call, w: World, ev: Event) {
    w.reply.NoReply? && ((ev.TakeResult? && w.at.Returned?) || (ev.TimeOut? && w.expired && !Joins(call)))
  }

  /** What one event changes, whatever came before. A run commits only between transitions and before a terminal
      one; counts what it wrote and publishes what it counted; ends between transitions, or by failing, also
      after a write; the deadline can pass at any time; and the supervisor replies once, to the result or, when it
      does not wait, to the deadline. */
  lemma {:induction false} EventsChange(call: Call, start: World, events: seq<Event>, ev: Event)
    ensures var u, v := Interleaving(call, start, events), Interleaving(call, start, events + [ev]);
            && v.commits == u.commits + (if Commits(u, ev) then 1 else 0)
            && v.terminal == (if Commits(u, ev) then ev.terminal else u.terminal)
            && v.counted == u.counted + (if ev.Count? && u.at.Written? then 1 else 0)
            && v.published == (if ev.Publish? && u.at.Counted? then Some(u.counted) else u.published)
            && (v.expired <==> u.expired || ev.Expire?)
            && (v.at.Returned? && !u.at.Returned? <==> Fails(u, ev) || (ev.Finish? && u.at.Between?))
            && (v.at.Returned? && !u.at.Returned? ==> (v.at.result.Some? <==> Fails(u, ev)))
            && (u.at.Returned? ==> v.at == u.at)
            && (v.reply.NoReply? <==> u.reply.NoReply? && !Replies(call, u, ev))
            && (!Replies(call, u, ev) ==> v.reply == u.reply)
  {
    hide Classify, Joins, FinalizeError, Unclassified;
    OneMore(call, start, events, ev);
  }

  /** A run that fails after it counted a transition says so in its error, and else returns the error alone. */
  lemma {:induction false} FailuresSayProgress(call: Call, start: World, events: seq<Event>, ev: Event)
    requires Fails(Interleaving(call, start, events), ev)
    ensures var u, v := Interleaving(call, start, events), Interleaving(call, start, events + [ev]);
            && v.at.Returned? && v.at.result.Some?
            && (u.counted > 0 ==> exists i :: 0 <= i < |v.at.result.value| && v.at.result.value[i].Progress?)
            && (forall c :: c in ev.error ==> c in v.at.result.value)
            && (u.counted == 0 ==> v.at.result.value == ev.error)
  {
    hide FinalizeError, Unclassified;
    OneMore(call, start, events, ev);
    var result := Wrapped(call, Interleaving(call, start, events).counted, ev.error);
    assert forall c :: c in ev.error ==> c in result;
    if result != ev.error {
      assert result[0].Progress?;
    }
  }

  /** What the run has published is what it has counted, but for the transition just being counted; so without a
      publication at most one transition was committed. */
  lemma {:induction false} PublishedIsCounted(call: Call, terminal: bool, events: seq<Event>)
    ensures var w := Interleaving(call, M.Start(terminal), events);
            var done: int := if w.at.Counted? then w.counted - 1 else w.counted;
            && w.published == (if done <= 0 then None else Some(done))
            && (w.at.Counted? ==> w.counted > 0) && w.counted <= w.commits <= w.counted + 1
            && (w.commits == w.counted + 1 ==> w.at.Written? || w.at.Returned?)
            && (w.at.Written? ==> w.commits == w.counted + 1)
            && (w.published.None? ==> w.commits <= 1)
    decreases |events|
  {
    hide Joins, FinalizeError, Unclassified, Classify;
    if events != [] { PublishedIsCounted(call, terminal, events[..|events| - 1]); }
  }
}
