/**
 The in-place insertion sort that defines canonical path lists in a status.
 */
module StatusStrings {

  // Strings compare character by character; a proper prefix comes first.
  predicate Less(a: string, b: string) {
    b != "" && (a == "" || a[0] < b[0] || (a[0] == b[0] && Less(a[1..], b[1..])))
  }

  lemma {:induction false} LessIsTotal(a: string, b: string)
    ensures (a == b && !Less(a, b) && !Less(b, a)) || (a != b && Less(a, b) != Less(b, a))
    decreases |a|
  {
    if a != "" && b != "" && a[0] == b[0] {
      LessIsTotal(a[1..], b[1..]);
      assert a == [a[0]] + a[1..] && b == [b[0]] + b[1..];
    }
  }

  lemma {:induction false} NotLessIsTransitive(a: string, b: string, c: string)
    requires !Less(b, a) && !Less(c, b)
    ensures !Less(c, a)
    decreases |a|
  {
    if a != "" && b != "" && c != "" && a[0] == b[0] && b[0] == c[0] {
      NotLessIsTransitive(a[1..], b[1..], c[1..]);
    }
  }

  predicate Sorted(s: seq<string>) {
    forall i, j :: 0 <= i < j < |s| ==> !Less(s[j], s[i])
  }

  predicate Permutes(a: seq<string>, b: seq<string>) {
    multiset(a) == multiset(b)
  }

  lemma SwapPermutes(s: seq<string>, i: nat)
    requires i + 1 < |s|
    ensures Permutes(s[i := s[i + 1]][i + 1 := s[i]], s)
  {
    var t := s[i := s[i + 1]][i + 1 := s[i]];
    assert s == s[..i] + [s[i], s[i + 1]] + s[i + 2..];
    assert t == s[..i] + [s[i + 1], s[i]] + s[i + 2..];
  }

  // The first n are sorted but for the one at `cursor`, which belongs before all that follow it.
  predicate SortedBut(s: seq<string>, n: nat, cursor: nat)
    requires n <= |s|
  {
    && (forall i, j :: 0 <= i < j < n && i != cursor && j != cursor ==> !Less(s[j], s[i]))
    && (forall j :: cursor < j < n ==> Less(s[cursor], s[j]))
  }

  // Moving the element one place down keeps that.
  lemma {:induction false} SwapKeepsOrder(s: seq<string>, n: nat, cursor: nat)
    requires 0 < cursor < n <= |s| && SortedBut(s, n, cursor) && Less(s[cursor], s[cursor - 1])
    ensures SortedBut(s[cursor := s[cursor - 1]][cursor - 1 := s[cursor]], n, cursor - 1)
  {
  }

  lemma SettledIsSorted(s: seq<string>, n: nat, cursor: nat)
    requires cursor < n <= |s| && SortedBut(s, n, cursor) && (cursor > 0 ==> !Less(s[cursor], s[cursor - 1]))
    ensures Sorted(s[..n])
  {
    forall i, j | 0 <= i < j < n ensures !Less(s[j], s[i]) {
      if i == cursor {
        LessIsTotal(s[cursor], s[j]);
      } else if j == cursor && i < cursor - 1 {
        NotLessIsTransitive(s[i], s[cursor - 1], s[cursor]);
      }
    }
  }

  lemma InsertionStarts(s: seq<string>, index: nat)
    requires index < |s| && Sorted(s[..index])
    ensures SortedBut(s, index + 1, index)
  {
    hide Less;
    forall i, j | 0 <= i < j < index ensures !Less(s[j], s[i]) {
      assert !Less(s[..index][j], s[..index][i]);
    }
  }

  // One swap of neighbours, as a whole.
  lemma InsertionSteps(before: seq<string>, after: seq<string>, values: seq<string>, n: nat, cursor: nat)
    requires 0 < cursor < n <= |before| && SortedBut(before, n, cursor) && Less(before[cursor], before[cursor - 1])
    requires Permutes(before, values)
    requires after == before[cursor := before[cursor - 1]][cursor - 1 := before[cursor]]
    ensures SortedBut(after, n, cursor - 1) && Permutes(after, values)
  {
    SwapPermutes(before, cursor - 1);
    SwapKeepsOrder(before, n, cursor);
    assert after == before[cursor - 1 := before[cursor]][cursor := before[cursor - 1]];
  }

  method InsertAt(copy: array<string>, index: nat, ghost values: seq<string>)
    requires index < copy.Length && Sorted(copy[..index]) && Permutes(copy[..], values)
    modifies copy
    ensures Sorted(copy[..index + 1]) && Permutes(copy[..], values)
  {
    hide Less, Permutes, SortedBut, Sorted;
    InsertionStarts(copy[..], index) by { assert copy[..][..index] == copy[..index]; }
    var cursor := index;
    while cursor > 0 && Less(copy[cursor], copy[cursor - 1])
      invariant 0 <= cursor <= index
      invariant Permutes(copy[..], values)
      invariant SortedBut(copy[..], index + 1, cursor)
    {
      ghost var before := copy[..];
      copy[cursor], copy[cursor - 1] := copy[cursor - 1], copy[cursor];
      InsertionSteps(before, copy[..], values, index + 1, cursor);
      cursor := cursor - 1;
    }
    SettledIsSorted(copy[..], index + 1, cursor);
    assert copy[..][..index + 1] == copy[..index + 1];
  }

  /** sortedReviewStatusStrings: a sorted permutation of its argument. */
  method SortedStrings(values: seq<string>) returns (sorted: seq<string>)
    ensures Sorted(sorted) && Permutes(sorted, values)
  {
    if values == [] { return []; }
    var copy := new string[|values|](i requires 0 <= i < |values| => values[i]);
    assert copy[..] == values;
    for index := 1 to copy.Length
      invariant Permutes(copy[..], values) && Sorted(copy[..index])
    {
      InsertAt(copy, index, values);
    }
    assert copy[..copy.Length] == copy[..];
    return copy[..];
  }

  lemma LastIsGreatest(a: seq<string>, y: string)
    requires Sorted(a) && a != [] && y in a
    ensures !Less(a[|a| - 1], y)
  {
    LessIsTotal(y, y);
  }

  lemma DropLast(a: seq<string>)
    requires a != []
    ensures multiset(a[..|a| - 1]) == multiset(a) - multiset{a[|a| - 1]} && a[|a| - 1] in multiset(a)
    ensures a == a[..|a| - 1] + [a[|a| - 1]]
    ensures Sorted(a) ==> Sorted(a[..|a| - 1])
  {
    hide Less;
    assert a == a[..|a| - 1] + [a[|a| - 1]];
  }

  // Two sorted permutations of each other are the same list.
  lemma {:induction false} SortedIsUnique(a: seq<string>, b: seq<string>)
    requires Sorted(a) && Sorted(b) && Permutes(a, b)
    ensures a == b
    decreases |a|
  {
    hide Less, Sorted;
    assert |a| == |b| by { assert |multiset(a)| == |a| && |multiset(b)| == |b|; }
    if a != [] {
      var x, y := a[|a| - 1], b[|b| - 1];
      DropLast(a);
      DropLast(b);
      LastIsGreatest(a, y);
      LastIsGreatest(b, x);
      LessIsTotal(x, y);
      SortedIsUnique(a[..|a| - 1], b[..|b| - 1]);
    }
  }

  /** A path list passes the canonical check, that sorting it changes nothing, exactly when it is sorted. */
  lemma CanonicalIffSorted(paths: seq<string>, sorted: seq<string>)
    requires Sorted(sorted) && Permutes(sorted, paths)
    ensures sorted == paths <==> Sorted(paths)
  {
    if Sorted(paths) { SortedIsUnique(sorted, paths); }
  }
}
