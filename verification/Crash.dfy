/**
 Step lists and crashes. A call is a list of steps; a process that dies performs a prefix of it.
 */
module Crash {

  function Run<S, O>(apply: (S, O) -> S, s: S, ops: seq<O>): S
    decreases ops
  {
    if ops == [] then s else Run(apply, apply(s, ops[0]), ops[1..])
  }

  // The steps performed when the process dies after `budget` of them.
  function Cut<O>(ops: seq<O>, budget: nat): seq<O> {
    if budget < |ops| then ops[..budget] else ops
  }

  // P holds before the first step and after every one of them: whatever the crash point, P holds.
  ghost predicate Always<S, O>(apply: (S, O) -> S, s: S, ops: seq<O>, P: S -> bool)
    decreases ops
  {
    P(s) && (ops == [] || Always(apply, apply(s, ops[0]), ops[1..], P))
  }

  lemma {:induction false} RunConcat<S, O>(apply: (S, O) -> S, s: S, a: seq<O>, b: seq<O>)
    ensures Run(apply, s, a + b) == Run(apply, Run(apply, s, a), b)
    decreases a
  {
    if a == [] {
      assert a + b == b;
    } else {
      assert (a + b)[0] == a[0] && (a + b)[1..] == a[1..] + b;
      RunConcat(apply, apply(s, a[0]), a[1..], b);
    }
  }

  lemma {:induction false} AlwaysConcat<S, O>(apply: (S, O) -> S, s: S, a: seq<O>, b: seq<O>, P: S -> bool)
    requires Always(apply, s, a, P) && Always(apply, Run(apply, s, a), b, P)
    ensures Always(apply, s, a + b, P)
    decreases a
  {
    if a == [] {
      assert a + b == b;
    } else {
      assert (a + b)[0] == a[0] && (a + b)[1..] == a[1..] + b;
      AlwaysConcat(apply, apply(s, a[0]), a[1..], b, P);
    }
  }

  lemma {:induction false} AlwaysAtCrash<S, O>(apply: (S, O) -> S, s: S, ops: seq<O>, P: S -> bool, budget: nat)
    requires Always(apply, s, ops, P)
    ensures P(Run(apply, s, Cut(ops, budget)))
    decreases ops
  {
    if ops != [] && budget > 0 {
      AlwaysAtCrash(apply, apply(s, ops[0]), ops[1..], P, budget - 1);
      assert Cut(ops, budget)[0] == ops[0] && Cut(ops, budget)[1..] == Cut(ops[1..], budget - 1);
    }
  }

  // One more step.
  lemma {:induction false} StepAppends<S, O>(apply: (S, O) -> S, s: S, ops: seq<O>, k: nat)
    requires k < |ops|
    ensures Run(apply, s, ops[..k + 1]) == apply(Run(apply, s, ops[..k]), ops[k])
  {
    assert ops[..k + 1] == ops[..k] + [ops[k]];
    RunConcat(apply, s, ops[..k], [ops[k]]);
    var t := Run(apply, s, ops[..k]);
    assert [ops[k]][1..] == [];
    assert Run(apply, t, [ops[k]]) == Run(apply, apply(t, ops[k]), []);
  }

  // P holds throughout when the states after each number of steps are known and P holds of them.
  lemma {:induction false} AlwaysByStages<S, O>(apply: (S, O) -> S, s: S, ops: seq<O>, P: S -> bool, stages: seq<S>)
    requires |stages| == |ops| + 1 && stages[0] == s
    requires forall k :: 0 <= k < |ops| ==> apply(stages[k], ops[k]) == stages[k + 1]
    requires forall k :: 0 <= k <= |ops| ==> P(stages[k])
    ensures Always(apply, s, ops, P) && Run(apply, s, ops) == stages[|ops|]
    decreases ops
  {
    if ops != [] {
      AlwaysByStages(apply, stages[1], ops[1..], P, stages[1..]);
      assert apply(s, ops[0]) == stages[1];
    }
  }
}
