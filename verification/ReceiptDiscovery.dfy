/**
 Which authority a delivery gate is checked against when no lineage is named.
 */
module ReceiptDiscovery {
  import opened ReviewText
  import opened StatusStrings

  // What comparing one terminal authority with the live target gives. A changed scope may lack its
  // diagnostics, and the target itself may not resolve.
  datatype Assessment = Exact | ScopeChanged | ScopeWithoutContext | Unrelated | Unknown | Unresolved

  // `readable`: the record loads. `receiptOk`: its receipt is there and equals the derived one.
  datatype Leaf = Leaf(lineage: string, readable: bool, terminal: bool, receiptOk: bool, assessment: Assessment)

  datatype Kind = ReceiptMissing | ReceiptUnrelated | ReceiptScopeChanged | ReceiptAmbiguous | AuthorityCorrupted
  datatype Outcome = Found(leaf: Leaf) | Refused(kind: Kind, candidates: seq<string>) | TargetError(lineage: string)

  // ----- the exception for legacy corruption -----

  datatype Version = Compact | Legacy
  datatype EntryStatus =
    | Clean | Active | ApprovedEntry | EscalatedEntry | InvalidatedEntry | Superseded | Recovered | Historical
    | Invalid | Incomplete | Reset | Collision
  datatype Entry = Entry(version: Version, lineage: string, status: EntryStatus)
  datatype Lock = Lock(version: Version, lineage: string, ambiguous: bool)
  datatype Report = Report(failed: bool, diagnostics: nat, complete: bool, authoritative: bool, entries: seq<Entry>, locks: seq<Lock>)

  // The first legacy entry of a lineage.
  function LegacyEntry(entries: seq<Entry>, lineage: string): (k: nat)
    ensures k <= |entries|
    ensures k < |entries| ==> entries[k].version == Legacy && entries[k].lineage == lineage
    ensures forall j :: 0 <= j < k ==> !(entries[j].version == Legacy && entries[j].lineage == lineage)
  {
    if entries == [] || (entries[0].version == Legacy && entries[0].lineage == lineage) then 0
    else 1 + LegacyEntry(entries[1..], lineage)
  }

  // An ambiguous lock that is residue of a legacy entry already found invalid.
  predicate LockConfined(r: Report, l: Lock) {
    && l.version == Legacy && !BlankText(l.lineage)
    && LegacyEntry(r.entries, l.lineage) < |r.entries| && r.entries[LegacyEntry(r.entries, l.lineage)].status == Invalid
  }

  predicate GuardsInvalid(r: Report, l: Lock) {
    exists x :: x in r.entries && x.version == Legacy && x.lineage == l.lineage && x.status == Invalid
  }

  // What the exception tolerates: invalid legacy entries, at least one, and locks left by them.
  ghost predicate OnlyLegacyCorruption(r: Report) {
    && !r.failed && r.diagnostics == 0
    && (forall l :: l in r.locks && l.ambiguous ==> LockConfined(r, l))
    && (forall e :: e in r.entries ==> e.status != Incomplete && e.status != Reset && e.status != Collision)
    && (forall e :: e in r.entries && e.status == Invalid ==> e.version == Legacy)
    && (exists e :: e in r.entries && e.status == Invalid)
  }

  /** reviewAuthorityCorruptionConfinedToLegacyEntries: exactly the tolerated reports. So the exception never
      hides a bad compact entry, and never a lock that may still guard a compact authority or a legacy one
      that is not itself invalid. */
  method Confined(r: Report) returns (confined: bool)
    ensures confined <==> OnlyLegacyCorruption(r)
    ensures confined ==> forall e :: e in r.entries && e.version == Compact ==>
              e.status != Invalid && e.status != Incomplete && e.status != Reset && e.status != Collision
    ensures confined ==> forall l :: l in r.locks && l.ambiguous ==> l.version == Legacy && GuardsInvalid(r, l)
  {
    if r.failed || r.diagnostics > 0 { return false; }
    for k := 0 to |r.locks|
      invariant forall l :: l in r.locks[..k] && l.ambiguous ==> LockConfined(r, l)
    {
      if r.locks[k].ambiguous && !LockConfined(r, r.locks[k]) {
        assert r.locks[k] in r.locks;
        return false;
      }
    }
    assert r.locks[..|r.locks|] == r.locks;
    confined := false;
    for k := 0 to |r.entries|
      invariant forall e :: e in r.entries[..k] ==> e.status != Incomplete && e.status != Reset && e.status != Collision
      invariant forall e :: e in r.entries[..k] && e.status == Invalid ==> e.version == Legacy
      invariant confined <==> exists e :: e in r.entries[..k] && e.status == Invalid
    {
      var e := r.entries[k];
      assert r.entries[..k + 1] == r.entries[..k] + [e];
      assert e in r.entries;
      match e.status {
        case Invalid =>
          if e.version != Legacy { return false; }
          confined := true;
        case Incomplete => return false;
        case Reset => return false;
        case Collision => return false;
        case _ =>
      }
    }
    assert r.entries[..|r.entries|] == r.entries;
    forall l | l in r.locks && l.ambiguous ensures l.version == Legacy && GuardsInvalid(r, l) {
      assert LockConfined(r, l);
      assert r.entries[LegacyEntry(r.entries, l.lineage)] in r.entries;
    }
  }

  predicate Healthy(r: Report) {
    !r.failed && r.complete && r.authoritative
  }

  // ----- what the leaves add up to -----

  // Every terminal leaf, or only those assessed so.
  datatype Selection = Every | Only(assessment: Assessment)

  predicate Selected(l: Leaf, a: Selection) {
    l.terminal && (a.Only? ==> l.assessment == a.assessment)
  }

  // Lineages of the selected leaves, in store order.
  function Of(leaves: seq<Leaf>, a: Selection): seq<string> {
    if leaves == [] then []
    else
      var init, last := Of(leaves[..|leaves| - 1], a), leaves[|leaves| - 1];
      if Selected(last, a) then init + [last.lineage] else init
  }

  // A record that does not load, or a terminal one whose receipt is missing or differs.
  predicate Bad(l: Leaf) {
    !l.readable || (l.terminal && !l.receiptOk)
  }

  // The lists in which the leaves are collected.
  datatype Tally = Tally(exact: seq<Leaf>, scope: seq<string>, bare: seq<string>, unknown: seq<string>,
                         unresolved: seq<string>, all: seq<string>)

  ghost predicate Counts(leaves: seq<Leaf>, t: Tally) {
    && (forall l :: l in leaves ==> !Bad(l))
    && LineagesOf(t.exact) == Of(leaves, Only(Exact))
    && (forall l :: l in t.exact ==> l in leaves && l.terminal && l.assessment == Exact)
    && t.scope == Of(leaves, Only(ScopeChanged)) && t.bare == Of(leaves, Only(ScopeWithoutContext))
    && t.unknown == Of(leaves, Only(Unknown)) && t.unresolved == Of(leaves, Only(Unresolved)) && t.all == Of(leaves, Every)
  }

  function LineagesOf(leaves: seq<Leaf>): seq<string> {
    seq(|leaves|, i requires 0 <= i < |leaves| => leaves[i].lineage)
  }

  // The kind of outcome, from the sizes of the lists alone.
  datatype Verdict = Match | Ask(kind: Kind) | Resolve

  function VerdictOf(exact: nat, scope: nat, bare: nat, unknown: nat, unresolved: nat, all: nat): Verdict {
    if exact == 1 then Match
    else if exact > 1 then Ask(ReceiptAmbiguous)
    else if all == 0 then Ask(ReceiptMissing)
    else if scope + bare > 0 && scope + bare + unknown + unresolved > 1 then Ask(ReceiptAmbiguous)
    else if scope == 1 && bare == 0 && unknown == 0 && unresolved == 0 then Ask(ReceiptScopeChanged)
    else if bare > 0 || unknown > 0 then Ask(AuthorityCorrupted)
    else if unresolved == all then Resolve
    else if unresolved > 0 then Ask(AuthorityCorrupted)
    else Ask(ReceiptUnrelated)
  }

  // The lineages an answer names.
  function Named(leaves: seq<Leaf>, k: Kind): seq<string> {
    match k
    case ReceiptAmbiguous =>
      if |Of(leaves, Only(Exact))| > 1 then Of(leaves, Only(Exact))
      else Of(leaves, Only(ScopeChanged)) + Of(leaves, Only(ScopeWithoutContext)) + Of(leaves, Only(Unknown)) + Of(leaves, Only(Unresolved))
    case ReceiptScopeChanged => Of(leaves, Only(ScopeChanged))
    case ReceiptUnrelated => Of(leaves, Every)
    case _ => []
  }

  function Judged(leaves: seq<Leaf>): Verdict {
    VerdictOf(|Of(leaves, Only(Exact))|, |Of(leaves, Only(ScopeChanged))|, |Of(leaves, Only(ScopeWithoutContext))|, |Of(leaves, Only(Unknown))|,
              |Of(leaves, Only(Unresolved))|, |Of(leaves, Every)|)
  }

  // What discovery answers for leaves in some store order.
  ghost predicate Answers(leaves: seq<Leaf>, r: Outcome) {
    if exists l :: l in leaves && Bad(l) then r == Refused(AuthorityCorrupted, [])
    else
      match Judged(leaves)
      case Match => r.Found? && r.leaf in leaves && r.leaf.terminal && r.leaf.assessment == Exact
      case Resolve => r.TargetError? && r.lineage in Of(leaves, Only(Unresolved))
      case Ask(k) => r.Refused? && r.kind == k && Sorted(r.candidates) && Permutes(r.candidates, Named(leaves, k))
  }

  method Collect(leaves: seq<Leaf>) returns (t: Tally, ok: bool)
    ensures ok <==> forall l :: l in leaves ==> !Bad(l)
    ensures ok ==> Counts(leaves, t)
  {
    t := Tally([], [], [], [], [], []);
    for k := 0 to |leaves|
      invariant Counts(leaves[..k], t)
    {
      var l := leaves[k];
      assert leaves[..k + 1][..k] == leaves[..k] && leaves[..k + 1][k] == l;
      assert l in leaves;
      ghost var before := t;
      if !l.readable { return t, false; }
      if l.terminal {
        if !l.receiptOk { return t, false; }
        t := t.(all := t.all + [l.lineage]);
        match l.assessment {
          case Exact => t := t.(exact := t.exact + [l]);
          case ScopeChanged => t := t.(scope := t.scope + [l.lineage]);
          case ScopeWithoutContext => t := t.(bare := t.bare + [l.lineage]);
          case Unknown => t := t.(unknown := t.unknown + [l.lineage]);
          case Unresolved => t := t.(unresolved := t.unresolved + [l.lineage]);
          case Unrelated =>
        }
      }
      CountsOneMore(leaves[..k], l, before, t);
      assert leaves[..k + 1] == leaves[..k] + [l];
    }
    assert leaves[..|leaves|] == leaves;
    return t, true;
  }

  // Adding one good leaf to the lists.
  function Added(t: Tally, l: Leaf): Tally {
    if !l.terminal then t
    else
      var u := t.(all := t.all + [l.lineage]);
      match l.assessment
      case Exact => u.(exact := u.exact + [l])
      case ScopeChanged => u.(scope := u.scope + [l.lineage])
      case ScopeWithoutContext => u.(bare := u.bare + [l.lineage])
      case Unknown => u.(unknown := u.unknown + [l.lineage])
      case Unresolved => u.(unresolved := u.unresolved + [l.lineage])
      case Unrelated => u
  }

  lemma CountsOneMore(init: seq<Leaf>, l: Leaf, before: Tally, after: Tally)
    requires Counts(init, before) && !Bad(l) && after == Added(before, l)
    ensures Counts(init + [l], after)
  {
    assert (init + [l])[..|init|] == init && (init + [l])[|init|] == l;
    assert LineagesOf(before.exact + [l]) == LineagesOf(before.exact) + [l.lineage];
  }

  method Sort(names: seq<string>, k: Kind) returns (r: Outcome)
    ensures r.Refused? && r.kind == k && Sorted(r.candidates) && Permutes(r.candidates, names)
  {
    var sorted := SortedStrings(names);
    return Refused(k, sorted);
  }

  /** discoverCompactFacadeGateReview, once no lineage is given: the inventory check with its one
      exception, one pass over the leaves, and the decision on what was collected. */
  method Discover(report: Report, leavesListed: bool, leaves: seq<Leaf>) returns (r: Outcome)
    ensures !Healthy(report) && !OnlyLegacyCorruption(report) ==> r == Refused(AuthorityCorrupted, [])
    ensures (Healthy(report) || OnlyLegacyCorruption(report)) && leavesListed ==> Answers(leaves, r)
    ensures !leavesListed ==> r == Refused(AuthorityCorrupted, [])
    ensures r.Found? ==> leavesListed && (Healthy(report) || OnlyLegacyCorruption(report))
  {
    var confined := Confined(report);
    if !Healthy(report) && !confined { return Refused(AuthorityCorrupted, []); }
    if !leavesListed { return Refused(AuthorityCorrupted, []); }
    var t, ok := Collect(leaves);
    if !ok { return Refused(AuthorityCorrupted, []); }
    r := Decide(leaves, t);
  }

  // The decision on the collected lists.
  method Decide(ghost leaves: seq<Leaf>, t: Tally) returns (r: Outcome)
    requires Counts(leaves, t)
    ensures Answers(leaves, r)
  {
    hide Of, Sorted, Bad, Permutes;
    assert |t.exact| == |Of(leaves, Only(Exact))| by { assert |LineagesOf(t.exact)| == |t.exact|; }
    if |t.exact| == 1 { return Found(t.exact[0]); }
    if |t.exact| > 1 {
      r := Sort(LineagesOf(t.exact), ReceiptAmbiguous);
      return;
    }
    if |t.all| == 0 {
      r := Sort([], ReceiptMissing);
      return;
    }
    var scopes := |t.scope| + |t.bare|;
    if scopes > 0 && scopes + |t.unknown| + |t.unresolved| > 1 {
      r := Sort(t.scope + t.bare + t.unknown + t.unresolved, ReceiptAmbiguous);
      return;
    }
    if |t.scope| == 1 && |t.bare| == 0 && |t.unknown| == 0 && |t.unresolved| == 0 {
      assert [t.scope[0]] == t.scope;
      r := Sort([t.scope[0]], ReceiptScopeChanged);
      return;
    }
    if |t.bare| > 0 || |t.unknown| > 0 {
      r := Sort([], AuthorityCorrupted);
      return;
    }
    if |t.unresolved| == |t.all| { return TargetError(t.unresolved[0]); }
    if |t.unresolved| > 0 {
      r := Sort([], AuthorityCorrupted);
      return;
    }
    r := Sort(t.all, ReceiptUnrelated);
  }

  // ----- what the answers mean -----

  lemma {:induction false} OfCounts(leaves: seq<Leaf>, a: Selection)
    ensures |Of(leaves, a)| == |Filter(leaves, a)| && multiset(Of(leaves, a)) == multiset(LineagesOf(Filter(leaves, a)))
    decreases |leaves|
  {
    if leaves != [] {
      OfCounts(leaves[..|leaves| - 1], a);
      var f, last := Filter(leaves[..|leaves| - 1], a), leaves[|leaves| - 1];
      assert LineagesOf(f + [last]) == LineagesOf(f) + [last.lineage];
    }
  }

  function Filter(leaves: seq<Leaf>, a: Selection): seq<Leaf> {
    if leaves == [] then []
    else
      var init, last := Filter(leaves[..|leaves| - 1], a), leaves[|leaves| - 1];
      if Selected(last, a) then init + [last] else init
  }

  lemma {:induction false} FilterAre(leaves: seq<Leaf>, a: Selection)
    ensures forall l :: multiset(Filter(leaves, a))[l] == if Selected(l, a) then multiset(leaves)[l] else 0
    decreases |leaves|
  {
    if leaves != [] {
      FilterAre(leaves[..|leaves| - 1], a);
      assert leaves == leaves[..|leaves| - 1] + [leaves[|leaves| - 1]];
    }
  }

  /** An authority is returned exactly when one terminal leaf matches the live target, and then it is that
      leaf. */
  lemma FoundIffOneMatch(leaves: seq<Leaf>, r: Outcome)
    requires (forall l :: l in leaves ==> !Bad(l)) && Answers(leaves, r)
    ensures r.Found? <==> |Filter(leaves, Only(Exact))| == 1
    ensures r.Found? ==> Filter(leaves, Only(Exact)) == [r.leaf]
  {
    OfCounts(leaves, Only(Exact));
    if r.Found? {
      FilterAre(leaves, Only(Exact));
      var f := Filter(leaves, Only(Exact));
      assert r.leaf in multiset(leaves);
      assert r.leaf in multiset(f);
      assert f == [f[0]];
    }
  }

  /** "Unrelated" is answered only when there is a terminal leaf and every one was assessed unrelated. */
  lemma {:induction false} UnrelatedMeansAll(leaves: seq<Leaf>, r: Outcome)
    requires Answers(leaves, r) && r.Refused? && r.kind == ReceiptUnrelated
    ensures exists l :: l in leaves && l.terminal
    ensures forall l :: l in leaves && l.terminal ==> l.assessment == Unrelated
  {
    NoneOfThese(leaves);
    SomeTerminal(leaves);
  }

  lemma {:induction false} NoneOfThese(leaves: seq<Leaf>)
    requires Of(leaves, Only(Exact)) == [] && Of(leaves, Only(ScopeChanged)) == [] && Of(leaves, Only(ScopeWithoutContext)) == []
    requires Of(leaves, Only(Unknown)) == [] && Of(leaves, Only(Unresolved)) == []
    ensures forall l :: l in leaves && l.terminal ==> l.assessment == Unrelated
    decreases |leaves|
  {
    if leaves != [] {
      NoneOfThese(leaves[..|leaves| - 1]);
    }
  }

  lemma {:induction false} SomeTerminal(leaves: seq<Leaf>)
    requires Of(leaves, Every) != []
    ensures exists l :: l in leaves && l.terminal
    decreases |leaves|
  {
    if !leaves[|leaves| - 1].terminal {
      SomeTerminal(leaves[..|leaves| - 1]);
    }
  }

  // Counting does not depend on order.
  lemma OfPermutes(a: seq<Leaf>, b: seq<Leaf>, k: Selection)
    requires multiset(a) == multiset(b)
    ensures |Of(a, k)| == |Of(b, k)| && multiset(Of(a, k)) == multiset(Of(b, k))
  {
    OfCounts(a, k);
    OfCounts(b, k);
    FilterAre(a, k);
    FilterAre(b, k);
    assert multiset(Filter(a, k)) == multiset(Filter(b, k));
    LineagesPermute(Filter(a, k), Filter(b, k));
  }

  lemma RemoveOne(s: seq<Leaf>, j: nat)
    requires j < |s|
    ensures multiset(s[..j] + s[j + 1..]) == multiset(s) - multiset{s[j]}
    ensures multiset(LineagesOf(s[..j] + s[j + 1..])) == multiset(LineagesOf(s)) - multiset{s[j].lineage}
    ensures s[j].lineage in multiset(LineagesOf(s))
  {
    assert s == s[..j] + [s[j]] + s[j + 1..];
    assert LineagesOf(s) == LineagesOf(s[..j]) + [s[j].lineage] + LineagesOf(s[j + 1..]);
    assert LineagesOf(s[..j] + s[j + 1..]) == LineagesOf(s[..j]) + LineagesOf(s[j + 1..]);
  }

  lemma {:induction false} LineagesPermute(a: seq<Leaf>, b: seq<Leaf>)
    requires multiset(a) == multiset(b)
    ensures |a| == |b| && multiset(LineagesOf(a)) == multiset(LineagesOf(b))
    decreases |a|
  {
    hide LineagesOf;
    assert |multiset(a)| == |a| && |multiset(b)| == |b|;
    if a == [] {
      assert a == b;
    } else {
      assert a[0] in multiset(b);
      var j :| 0 <= j < |b| && b[j] == a[0];
      RemoveOne(a, 0);
      RemoveOne(b, j);
      LineagesPermute(a[..0] + a[1..], b[..j] + b[j + 1..]);
      AddBack(multiset(LineagesOf(a)), multiset(LineagesOf(b)), a[0].lineage);
    }
  }

  lemma AddBack(m: multiset<string>, n: multiset<string>, x: string)
    requires x in m && x in n && m - multiset{x} == n - multiset{x}
    ensures m == n
  {
    assert m == (m - multiset{x}) + multiset{x};
    assert n == (n - multiset{x}) + multiset{x};
  }

  // Verdict and named lineages are the same for any order.
  lemma SameVerdict(a: seq<Leaf>, b: seq<Leaf>)
    requires multiset(a) == multiset(b)
    ensures Judged(a) == Judged(b)
    ensures forall k :: multiset(Named(a, k)) == multiset(Named(b, k))
    ensures (exists l :: l in a && Bad(l)) <==> (exists l :: l in b && Bad(l))
  {
    hide Of, Bad;
    forall k ensures |Of(a, k)| == |Of(b, k)| && multiset(Of(a, k)) == multiset(Of(b, k)) { OfPermutes(a, b, k); }
    forall l ensures l in a <==> l in b { assert l in multiset(a) <==> l in multiset(b); }
  }

  /** The outcome does not depend on the order of the stores: the same kind of answer, the same candidates,
      and the same authority when one is found. Only which unresolved target is reported can differ. */
  lemma OrderDoesNotMatter(a: seq<Leaf>, b: seq<Leaf>, r: Outcome, q: Outcome)
    requires multiset(a) == multiset(b) && Answers(a, r) && Answers(b, q)
    ensures r == q || (r.TargetError? && q.TargetError?)
  {
    hide Of, Sorted, Judged, Named, Bad;
    SameVerdict(a, b);
    if !(exists l :: l in a && Bad(l)) {
      if r.Found? {
        SameMatch(a, b, r, q);
      } else if r.Refused? {
        SortedIsUnique(r.candidates, q.candidates);
      }
    }
  }

  lemma SameMatch(a: seq<Leaf>, b: seq<Leaf>, r: Outcome, q: Outcome)
    requires multiset(a) == multiset(b) && Answers(a, r) && Answers(b, q) && r.Found? && q.Found?
    requires !(exists l :: l in a && Bad(l)) && !(exists l :: l in b && Bad(l))
    ensures r == q
  {
    FoundIffOneMatch(a, r);
    FoundIffOneMatch(b, q);
    FilterAre(a, Only(Exact));
    FilterAre(b, Only(Exact));
    assert multiset(Filter(a, Only(Exact))) == multiset(Filter(b, Only(Exact)));
    assert r.leaf in multiset(Filter(b, Only(Exact)));
  }
}
