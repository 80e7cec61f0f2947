/**
 What discovery answers, by how many of the terminal leaves were assessed how.
 */
module DiscoveryAnswers {
  import opened StatusStrings
  import opened ReceiptDiscovery

  function Number(leaves: seq<Leaf>, a: Assessment): nat {
    |Filter(leaves, Only(a))|
  }

  function Terminals(leaves: seq<Leaf>): nat {
    |Filter(leaves, Every)|
  }

  ghost predicate AllGood(leaves: seq<Leaf>) {
    forall l :: l in leaves ==> l.readable && (l.terminal ==> l.receiptOk)
  }

  // The number of leaves that cannot be told to be unrelated.
  function Doubtful(leaves: seq<Leaf>): nat {
    Number(leaves, ScopeChanged) + Number(leaves, ScopeWithoutContext) + Number(leaves, Unknown) + Number(leaves, Unresolved)
  }

  lemma {:induction false} NumbersAddUp(leaves: seq<Leaf>)
    ensures Number(leaves, Exact) + Doubtful(leaves) + Number(leaves, Unrelated) == Terminals(leaves)
    decreases |leaves|
  {
    if leaves != [] { NumbersAddUp(leaves[..|leaves| - 1]); }
  }

  lemma NumbersAreCounted(leaves: seq<Leaf>)
    ensures forall a :: |Of(leaves, Only(a))| == Number(leaves, a)
    ensures |Of(leaves, Every)| == Terminals(leaves)
    ensures forall k :: multiset(Of(leaves, k)) == multiset(LineagesOf(Filter(leaves, k)))
  {
    hide Of, Filter;
    forall k ensures |Of(leaves, k)| == |Filter(leaves, k)| && multiset(Of(leaves, k)) == multiset(LineagesOf(Filter(leaves, k))) {
      OfCounts(leaves, k);
    }
  }

  lemma GoodIsNotBad(leaves: seq<Leaf>)
    ensures AllGood(leaves) <==> !exists l :: l in leaves && Bad(l)
  {
    if l :| l in leaves && Bad(l) {
      assert !AllGood(leaves);
    }
  }

  /** One bad record, or one receipt that is missing or differs, is corruption whatever else is found. */
  lemma BadIsCorruption(leaves: seq<Leaf>, r: Outcome)
    requires Answers(leaves, r) && !AllGood(leaves)
    ensures r == Refused(AuthorityCorrupted, [])
  {
    hide Bad, Judged, Named, Sorted, Permutes;
    GoodIsNotBad(leaves);
  }

  /** Otherwise each answer is given exactly for these numbers. One match wins over everything. A changed scope
      is reported only when it is the only leaf in doubt, two in doubt are ambiguous as soon as one changed
      scope is among them, and targets that do not resolve are reported as such only when none does. */
  lemma {:induction false} DiscoveryIs(leaves: seq<Leaf>, r: Outcome)
    requires Answers(leaves, r) && AllGood(leaves)
    ensures var exact, doubtful := Number(leaves, Exact), Doubtful(leaves);
            var scope, bare := Number(leaves, ScopeChanged), Number(leaves, ScopeWithoutContext);
            var unknown, unresolved := Number(leaves, Unknown), Number(leaves, Unresolved);
            && (r.Found? <==> exact == 1)
            && (r.Refused? && r.kind == ReceiptMissing <==> Terminals(leaves) == 0)
            && (r.Refused? && r.kind == ReceiptAmbiguous <==>
                  exact > 1 || (exact == 0 && scope + bare > 0 && doubtful > 1))
            && (r.Refused? && r.kind == ReceiptScopeChanged <==> exact == 0 && scope == 1 && doubtful == 1)
            && (r.TargetError? <==> unresolved > 0 && unresolved == Terminals(leaves))
            && (r.Refused? && r.kind == ReceiptUnrelated <==>
                  Terminals(leaves) > 0 && Number(leaves, Unrelated) == Terminals(leaves))
            && (r.Refused? && r.kind == AuthorityCorrupted <==>
                  && exact == 0
                  && ((bare == 1 && doubtful == 1)
                      || (scope + bare == 0 && unknown > 0)
                      || (scope + bare + unknown == 0 && 0 < unresolved < Terminals(leaves))))
  {
    hide Bad, Of, Filter, Named, Sorted, Permutes, AllGood;
    GoodIsNotBad(leaves);
    NumbersAddUp(leaves);
    NumbersAreCounted(leaves);
  }

  /** And it names, in order and each as often as it occurs: for several matches the matches, for other
      ambiguities everything in doubt, the leaf whose scope changed, or every terminal leaf. */
  lemma {:induction false} NamedAre(leaves: seq<Leaf>, r: Outcome)
    requires Answers(leaves, r) && AllGood(leaves) && r.Refused?
    ensures Sorted(r.candidates)
    ensures r.kind == ReceiptAmbiguous && Number(leaves, Exact) > 1 ==>
              multiset(r.candidates) == multiset(LineagesOf(Filter(leaves, Only(Exact))))
    ensures r.kind == ReceiptAmbiguous && Number(leaves, Exact) <= 1 ==>
              multiset(r.candidates) ==
              multiset(LineagesOf(Filter(leaves, Only(ScopeChanged)))) +
              multiset(LineagesOf(Filter(leaves, Only(ScopeWithoutContext)))) +
              multiset(LineagesOf(Filter(leaves, Only(Unknown)))) + multiset(LineagesOf(Filter(leaves, Only(Unresolved))))
    ensures r.kind == ReceiptScopeChanged ==>
              multiset(r.candidates) == multiset(LineagesOf(Filter(leaves, Only(ScopeChanged))))
    ensures r.kind == ReceiptUnrelated ==> multiset(r.candidates) == multiset(LineagesOf(Filter(leaves, Every)))
    ensures r.kind == ReceiptMissing || r.kind == AuthorityCorrupted ==> r.candidates == []
  {
    hide Bad, Of, Filter, Sorted, AllGood, LineagesOf;
    GoodIsNotBad(leaves);
    NumbersAreCounted(leaves);
  }

  /** The target error is that of a leaf whose target does not resolve. */
  lemma {:induction false} TargetErrorIsOfALeaf(leaves: seq<Leaf>, r: Outcome)
    requires Answers(leaves, r) && AllGood(leaves) && r.TargetError?
    ensures exists l :: l in leaves && l.terminal && l.assessment == Unresolved && l.lineage == r.lineage
  {
    GoodIsNotBad(leaves);
    OfIsOfLeaves(leaves, Only(Unresolved), r.lineage);
  }

  lemma {:induction false} OfIsOfLeaves(leaves: seq<Leaf>, a: Selection, lineage: string)
    requires lineage in Of(leaves, a)
    ensures exists l :: l in leaves && Selected(l, a) && l.lineage == lineage
    decreases |leaves|
  {
    var last := leaves[|leaves| - 1];
    if Selected(last, a) && last.lineage == lineage {
      assert last in leaves;
    } else {
      OfIsOfLeaves(leaves[..|leaves| - 1], a, lineage);
    }
  }
}
