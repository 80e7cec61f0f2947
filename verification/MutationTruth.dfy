/**
 A negotiated run and its supervisor: what may be reported about mutation, in every interleaving.

 The run and the supervisor share one pointer, stored after each committed transition. The supervisor
 replies once: when the run's result arrives, or, for operations it does not wait for, at the deadline.
 The run keeps going after a reply at the deadline.
 */
module MutationTruth {
  import opened Wrappers
  import opened ReviewText
  import opened ReviewArguments
  import opened FailureEnvelope

  // Where the run stands. Written: a successor is durable but the commit has not returned. Counted: the
  // run's own counter knows about it but the shared pointer does not.
  datatype Position = Between | Written | Counted | Returned(result: Option<Error>)

  datatype Reply = NoReply | Success | Reported(failure: Failure)

  datatype Call = Call(op: Operation, args: seq<string>, argsDigest: string, lineage: string)

  // `commits` is what actually happened; `counted` and `published` are what the run and the shared
  // pointer know. `terminal` says the current authority is terminal.
  datatype World = World(
    at: Position, commits: nat, counted: nat, published: Option<nat>, terminal: bool, expired: bool, reply: Reply)

  datatype Event =
    | Commit(terminal: bool)   // a successor becomes durable
    | Count                    // the commit returns and the counter moves
    | Publish                  // the shared pointer is stored
    | FailBetween(error: Error)
    | FailWritten(error: Error)
    | Finish
    | Expire                   // the deadline passes
    | TakeResult               // the supervisor receives the run's result
    | TimeOut                  // the supervisor sees the deadline first

  function Start(terminal: bool): World {
    World(Between, 0, 0, None, terminal, false, NoReply)
  }

  // FINALIZE builds none of these, and a publication failure only for a terminal authority.
  predicate FinalizeError(e: Error, terminal: bool) {
    forall c :: c in e ==>
      && !c.RetryDenied? && !c.BindingConflict? && !c.BindingPublication? && !c.StartContext? && !c.Progress?
      && !c.RepairProgress? && (c.Publication? ==> terminal)
  }

  // After the write only unclassified errors arise: a failed directory sync, or a revision that differs
  // from the planned one.
  predicate Unclassified(e: Error) {
    forall c :: c in e ==> c.Opaque?
  }

  // The deferred wrapper of a failing run.
  function Wrapped(call: Call, counted: nat, e: Error): Error {
    if counted == 0 || (exists i :: 0 <= i < |e| && e[i].Progress?) then e else [Progress(call.lineage)] + e
  }

  predicate Joins(call: Call) {
    call.op == BindSDD || (MetadataOf(call.op).joinOnTimeout && MayMutate(call.op, call.args))
  }

  predicate Enabled(call: Call, w: World, ev: Event) {
    match ev
    case Commit(_) => w.at == Between && !w.terminal
    case Count => w.at == Written
    case Publish => w.at == Counted
    case FailBetween(e) => w.at == Between && FinalizeError(e, w.terminal)
    case FailWritten(e) => w.at == Written && Unclassified(e)
    case Finish => w.at == Between
    case Expire => !w.expired
    case TakeResult => w.at.Returned? && w.reply == NoReply
    case TimeOut => w.expired && w.reply == NoReply && !Joins(call)
  }

  function Report(call: Call, e: Error): Reply {
    Reported(Classify(call.op, call.args, call.argsDigest, e))
  }

  // The supervisor's select, for either case.
  function ReplyToResult(call: Call, w: World, result: Option<Error>): Reply {
    match result
    case Some(e) => Report(call, e)
    case None => if w.expired && call.op != BindSDD then Report(call, [DeadlineExceeded]) else Success
  }

  function ReplyAtDeadline(call: Call, w: World): Reply {
    if w.published.Some? then Report(call, [Progress(call.lineage), GitTimeout(true), DeadlineExceeded])
    else Report(call, [DeadlineExceeded])
  }

  function Next(call: Call, w: World, ev: Event): World {
    match ev
    case Commit(terminal) => w.(at := Written, commits := w.commits + 1, terminal := terminal)
    case Count => w.(at := Counted, counted := w.counted + 1)
    case Publish => w.(at := Between, published := Some(w.counted))
    case FailBetween(e) => w.(at := Returned(Some(Wrapped(call, w.counted, e))))
    case FailWritten(e) => w.(at := Returned(Some(Wrapped(call, w.counted, e))))
    case Finish => w.(at := Returned(None))
    case Expire => w.(expired := true)
    case TakeResult => if w.at.Returned? then w.(reply := ReplyToResult(call, w, w.at.result)) else w
    case TimeOut => w.(reply := ReplyAtDeadline(call, w))
  }

  // Events that are not enabled do nothing, so any sequence of events is an interleaving.
  function Interleaving(call: Call, start: World, events: seq<Event>): World
    decreases |events|
  {
    if events == [] then start
    else
      var w := Interleaving(call, start, events[..|events| - 1]);
      var ev := events[|events| - 1];
      if Enabled(call, w, ev) then Next(call, w, ev) else w
  }

  // A report is truthful about a world.
  predicate Truthful(call: Call, w: World, f: Failure) {
    && (f.outcome == NotStarted ==> w.commits == 0 && w.at.Returned?)
    && (f.outcome == Committed ==> w.terminal)
  }

  ghost predicate Inv(call: Call, w: World) {
    && w.counted <= w.commits
    && (w.at == Between || w.at == Counted ==> w.counted == w.commits)
    && (w.at == Written ==> w.counted + 1 == w.commits)
    && (w.at == Counted ==> w.commits > 0)
    && (w.published.Some? ==> w.commits > 0)
    && (w.at.Returned? && w.at.result.Some? ==>
          Truthful(call, w, Classify(call.op, call.args, call.argsDigest, w.at.result.value)))
    && (w.reply.Reported? ==> Truthful(call, w, w.reply.failure))
  }

  // Once the progress cause is in, nothing but a mismatch or a publication takes precedence.
  lemma {:induction false} WrappedIsUnknownOrCommitted(call: Call, e: Error, terminal: bool)
    requires call.op == Finalize && FinalizeError(e, terminal)
    ensures var f := Classify(call.op, call.args, call.argsDigest, [Progress(call.lineage)] + e);
            f.outcome == Unknown || (f.outcome == Committed && terminal)
  {
    hide SafeLineage, TimesOut, GitFails, ControlText, Expires;
    var whole := [Progress(call.lineage)] + e;
    assert whole[0] in whole;
    var c := Decisive(whole).value;
    assert c.ReplayMismatch? || c.Publication? || c.Progress? by { assert Rank(c) <= 6; }
  }

  lemma {:induction false} UnwrappedIsTruthful(call: Call, e: Error, terminal: bool)
    requires call.op == Finalize && FinalizeError(e, terminal)
    ensures Classify(call.op, call.args, call.argsDigest, e).outcome == Committed ==> terminal
  {
    hide Classify;
    if Classify(call.op, call.args, call.argsDigest, e).outcome == Committed {
      CommittedCauses(call.op, call.args, call.argsDigest, e);
    }
  }

  lemma UnclassifiedIsUnknown(call: Call, e: Error)
    requires call.op == Finalize && Unclassified(e)
    ensures Classify(call.op, call.args, call.argsDigest, e).outcome == Unknown
    ensures FinalizeError(e, false)
  {
    hide SafeLineage;
  }

  lemma BareDeadlineIsUnknown(call: Call)
    requires call.op == Finalize
    ensures Report(call, [DeadlineExceeded]).failure.outcome == Unknown
  {
    hide SafeLineage;
    assert Decisive([DeadlineExceeded]) == Some(DeadlineExceeded);
  }

  // At the deadline FINALIZE is never reported as not started.
  lemma DeadlineIsUnknown(call: Call, w: World)
    requires call.op == Finalize
    ensures ReplyAtDeadline(call, w).Reported? && ReplyAtDeadline(call, w).failure.outcome == Unknown
    ensures Report(call, [DeadlineExceeded]).failure.outcome == Unknown
  {
    hide Classify;
    BareDeadlineIsUnknown(call);
    var rest := [GitTimeout(true), DeadlineExceeded];
    assert [Progress(call.lineage), GitTimeout(true), DeadlineExceeded] == [Progress(call.lineage)] + rest;
    WrappedIsUnknownOrCommitted(call, rest, false);
  }

  lemma {:induction false} StepKeepsInv(call: Call, w: World, ev: Event)
    requires call.op == Finalize && Inv(call, w) && Enabled(call, w, ev)
    ensures Inv(call, Next(call, w, ev))
  {
    hide Classify;
    match ev {
      case FailBetween(e) =>
        UnwrappedIsTruthful(call, e, w.terminal);
        WrappedIsUnknownOrCommitted(call, e, w.terminal);
      case FailWritten(e) =>
        UnclassifiedIsUnknown(call, e);
        WrappedIsUnknownOrCommitted(call, e, w.terminal);
      case TakeResult => DeadlineIsUnknown(call, w);
      case TimeOut => DeadlineIsUnknown(call, w);
      case _ =>
    }
  }

  /** Mutation truth. In every interleaving of commits, counting, publication, the deadline and the
      supervisor: a report that says not_started means this run has committed nothing, and never will; one
      that says committed means the current authority is terminal. */
  lemma {:induction false} ReportsAreTruthful(call: Call, terminal: bool, events: seq<Event>)
    requires call.op == Finalize
    ensures var w := Interleaving(call, Start(terminal), events);
            Inv(call, w) && (w.reply.Reported? ==> Truthful(call, w, w.reply.failure))
    decreases |events|
  {
    if events == [] {
    } else {
      ReportsAreTruthful(call, terminal, events[..|events| - 1]);
      var w := Interleaving(call, Start(terminal), events[..|events| - 1]);
      if Enabled(call, w, events[|events| - 1]) { StepKeepsInv(call, w, events[|events| - 1]); }
    }
  }

  // Nothing the run does after it has returned, and nothing after a reply, changes the reply.
  lemma {:induction false} RepliesOnce(call: Call, start: World, events: seq<Event>, later: seq<Event>)
    requires Interleaving(call, start, events).reply != NoReply
    ensures Interleaving(call, start, events + later).reply == Interleaving(call, start, events).reply
    decreases |later|
  {
    if later == [] {
      assert events + later == events;
    } else {
      var all := events + later;
      assert all[..|all| - 1] == events + later[..|later| - 1] && all[|all| - 1] == later[|later| - 1];
      RepliesOnce(call, start, events, later[..|later| - 1]);
    }
  }

  /** An operation the supervisor waits for is reported only after it has returned. */
  lemma {:induction false} JoinedRepliesLast(call: Call, terminal: bool, events: seq<Event>)
    requires Joins(call)
    ensures var w := Interleaving(call, Start(terminal), events);
            w.reply != NoReply ==> w.at.Returned?
    decreases |events|
  {
    if events != [] {
      JoinedRepliesLast(call, terminal, events[..|events| - 1]);
    }
  }
}
