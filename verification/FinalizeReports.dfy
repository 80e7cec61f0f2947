/**
 What is reported of a FINALIZE run, set against what the run committed: the two views of one run, by its
 store and by its supervisor, are joined.
 */
module FinalizeReports {
  import opened FinalizePlan
  import opened FinalizeJournal
  import opened FinalizeCrash
  import opened FinalizeRuns
  import ReviewArguments
  import FailureEnvelope
  import Truth = MutationTruth

  // The commits that take place in an interleaving: for each, whether it ends the review.
  function Commits(call: Truth.Call, start: Truth.World, events: seq<Truth.Event>): seq<bool>
    decreases |events|
  {
    if events == [] then []
    else
      var init, last := events[..|events| - 1], events[|events| - 1];
      Commits(call, start, init) +
      if last.Commit? && Truth.Enabled(call, Truth.Interleaving(call, start, init), last) then [last.terminal] else []
  }

  lemma {:induction false} CommitsAreCounted(call: Truth.Call, terminal: bool, events: seq<Truth.Event>)
    ensures var w, flags := Truth.Interleaving(call, Truth.Start(terminal), events), Commits(call, Truth.Start(terminal), events);
            w.commits == |flags| && w.terminal == if flags == [] then terminal else flags[|flags| - 1]
    decreases |events|
  {
    if events != [] {
      CommitsAreCounted(call, terminal, events[..|events| - 1]);
    }
  }

  // What the run added to the history.
  function Added(st: Store, after: Store): seq<Authority> {
    if |st.history| <= |after.history| then after.history[|st.history|..] else []
  }

  function Flags(states: seq<Authority>): seq<bool> {
    seq(|states|, j requires 0 <= j < |states| => Terminal(states[j]))
  }

  // The supervisor watches a run that takes the store from `st` to `after`: the commits in the interleaving,
  // wherever counting, the deadline and the replies fall, are those of the run.
  ghost predicate Watches(call: Truth.Call, st: Store, after: Store, events: seq<Truth.Event>) {
    st.history != [] && Commits(call, Truth.Start(Terminal(Current(st))), events) == Flags(Added(st, after))
  }

  /** Reports and commits agree. Whatever run is watched, with any inputs and cut off anywhere, and however the
      supervisor's steps fall among its own: the commits counted are the transitions the run added to the
      history; a report that says not_started means it has added none; and one that says committed means that
      the authority it left is terminal. */
  lemma {:induction false} ReportsOfARun(st: Store, ev: Event, call: Truth.Call, events: seq<Truth.Event>)
    requires Inv(st) && call.op == ReviewArguments.Finalize && Watches(call, st, RunOnce(st, ev), events)
    ensures var w, after := Truth.Interleaving(call, Truth.Start(Terminal(Current(st))), events), RunOnce(st, ev);
            && after.history == st.history + Added(st, after) && w.commits == |Added(st, after)|
            && w.terminal == Terminal(Current(after))
            && (w.reply.Reported? && w.reply.failure.outcome == FailureEnvelope.NotStarted ==> after.history == st.history)
            && (w.reply.Reported? && w.reply.failure.outcome == FailureEnvelope.Committed ==> Terminal(Current(after)))
  {
    hide Inv, RunOnce, Commits, Truth.Interleaving, Terminal;
    var after := RunOnce(st, ev);
    RunAdds(st, ev);
    CommitsAreCounted(call, Terminal(Current(st)), events);
    Truth.ReportsAreTruthful(call, Terminal(Current(st)), events);
    if Added(st, after) == [] { assert after.history == st.history; }
  }

  lemma RunAdds(st: Store, ev: Event)
    requires Inv(st)
    ensures st.history != [] && Inv(RunOnce(st, ev)) && RunOnce(st, ev).history == st.history + Added(st, RunOnce(st, ev))
  {
    hide HistoryClimbs, Distinct, Resumable, FinalizeRun, Owed;
    InvHasHistory(st);
    RunAtCrash(st, ev);
    var j :| Committed(st, RunOnce(st, ev), Owed(st, ev.inv.inputs), j);
  }

  // The plainest interleaving: each commit is counted and published at once.
  function Watched(states: seq<Authority>): seq<Truth.Event> {
    if states == [] then []
    else Watched(states[..|states| - 1]) + [Truth.Commit(Terminal(states[|states| - 1])), Truth.Count, Truth.Publish]
  }

  // Nothing follows a terminal authority.
  predicate EndsOnce(terminal: bool, states: seq<Authority>) {
    && (terminal ==> states == [])
    && forall j :: 0 <= j < |states| - 1 ==> !Terminal(states[j])
  }

  lemma {:induction false} WatchedShows(call: Truth.Call, terminal: bool, states: seq<Authority>)
    requires EndsOnce(terminal, states)
    ensures Commits(call, Truth.Start(terminal), Watched(states)) == Flags(states)
    ensures Truth.Interleaving(call, Truth.Start(terminal), Watched(states)).at == Truth.Between
    decreases |states|
  {
    hide Terminal;
    if states != [] {
      var init, last := states[..|states| - 1], states[|states| - 1];
      WatchedShows(call, terminal, init);
      CommitsAreCounted(call, terminal, Watched(init));
      assert Flags(states) == Flags(init) + [Terminal(last)];
      ThreeMore(call, Truth.Start(terminal), Watched(init), Terminal(last));
    }
  }

  lemma ThreeMore(call: Truth.Call, start: Truth.World, events: seq<Truth.Event>, terminal: bool)
    requires var w := Truth.Interleaving(call, start, events); w.at == Truth.Between && !w.terminal
    ensures var all := events + [Truth.Commit(terminal), Truth.Count, Truth.Publish];
            && Commits(call, start, all) == Commits(call, start, events) + [terminal]
            && Truth.Interleaving(call, start, all).at == Truth.Between
  {
    hide Truth.Interleaving, Commits;
    var one := events + [Truth.Commit(terminal)];
    var two := one + [Truth.Count];
    OneMore(call, start, events, Truth.Commit(terminal));
    OneMore(call, start, one, Truth.Count);
    OneMore(call, start, two, Truth.Publish);
    assert two + [Truth.Publish] == events + [Truth.Commit(terminal), Truth.Count, Truth.Publish];
  }

  lemma OneMore(call: Truth.Call, start: Truth.World, events: seq<Truth.Event>, next: Truth.Event)
    ensures var w := Truth.Interleaving(call, start, events);
            && Truth.Interleaving(call, start, events + [next]) == (if Truth.Enabled(call, w, next) then Truth.Next(call, w, next) else w)
            && Commits(call, start, events + [next]) ==
                 Commits(call, start, events) + if next.Commit? && Truth.Enabled(call, w, next) then [next.terminal] else []
  {
    hide Truth.Enabled, Truth.Next;
    assert (events + [next])[..|events|] == events;
  }

  /** Every run can be watched: no transition follows a terminal authority, so each commit is a step the
      supervised run may take. */
  lemma {:induction false} EveryRunIsWatched(st: Store, ev: Event, call: Truth.Call)
    requires Inv(st)
    ensures st.history != [] && Watches(call, st, RunOnce(st, ev), Watched(Added(st, RunOnce(st, ev))))
  {
    hide RunOnce, Commits;
    RunAdds(st, ev);
    var after := RunOnce(st, ev);
    OnlyLastIsTerminal(after);
    if Terminal(Current(st)) { TerminalRunKeepsHistory(st, ev); }
    forall j | 0 <= j < |Added(st, after)| - 1 ensures !Terminal(Added(st, after)[j]) {
      assert Added(st, after)[j] == after.history[|st.history| + j];
    }
    WatchedShows(call, Terminal(Current(st)), Added(st, after));
  }

  lemma OnlyLastIsTerminal(st: Store)
    requires Inv(st)
    ensures forall j :: 0 <= j < |st.history| - 1 ==> !Terminal(st.history[j])
  {
    hide Distinct, Resumable;
    forall j | 0 <= j < |st.history| - 1 ensures !Terminal(st.history[j]) {
      assert Rank(st.history[j]) < Rank(st.history[|st.history| - 1]);
    }
  }
}
