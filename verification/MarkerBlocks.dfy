/**
 Marker blocks of custom agents in a prompt file.
 */
module MarkerBlocks {
  import opened Wrappers

  // ----- occurrences -----

  predicate OccursAt(s: string, t: string, i: nat) {
    i + |t| <= |s| && s[i..i + |t|] == t
  }

  ghost predicate Occurs(s: string, t: string) {
    exists i: nat :: OccursAt(s, t, i)
  }

  // The first occurrence from position `from` on.
  function IndexFrom(s: string, t: string, from: nat): (r: Option<nat>)
    requires from <= |s|
    ensures r.Some? ==> from <= r.value && OccursAt(s, t, r.value) && forall j: nat :: from <= j < r.value ==> !OccursAt(s, t, j)
    ensures r.None? ==> forall j: nat :: from <= j ==> !OccursAt(s, t, j)
    decreases |s| - from
  {
    if from + |t| > |s| then None
    else if s[from..from + |t|] == t then Some(from)
    else if from == |s| then None
    else IndexFrom(s, t, from + 1)
  }

  // A tag opens with '<', its only one, and stays on one line.
  predicate Tag(t: string) {
    t != "" && t[0] == '<' && forall i :: 1 <= i < |t| ==> t[i] != '<' && t[i] != '\n'
  }

  lemma CharsOf(c: string, t: string, s: nat)
    requires OccursAt(c, t, s)
    ensures forall k :: s <= k < s + |t| ==> c[k] == t[k - s]
  {
    assert forall k :: s <= k < s + |t| ==> c[k] == c[s..s + |t|][k - s];
  }

  // An occurrence of a tag that starts in `a` ends in `a` when what follows opens a tag or a line.
  lemma NoStraddle(a: string, b: string, t: string, i: nat)
    requires Tag(t) && OccursAt(a + b, t, i) && i < |a| && b != "" && (b[0] == '<' || b[0] == '\n')
    ensures OccursAt(a, t, i)
  {
    CharsOf(a + b, t, i);
    assert (a + b)[|a|] == b[0];
    assert a[i..i + |t|] == (a + b)[i..i + |t|];
  }

  lemma OccursInContext(pre: string, mid: string, post: string, t: string, i: nat)
    requires OccursAt(mid, t, i)
    ensures OccursAt(pre + mid + post, t, |pre| + i)
  {
    assert (pre + mid + post)[|pre| + i..|pre| + i + |t|] == mid[i..i + |t|];
  }

  // When `a` has no occurrence and `b` opens with the tag, the first one is where `b` begins.
  lemma {:induction false} FirstAfter(a: string, b: string, t: string)
    requires Tag(t) && !Occurs(a, t) && OccursAt(b, t, 0)
    ensures IndexFrom(a + b, t, 0) == Some(|a|)
  {
    hide IndexFrom;
    assert (a + b)[|a|..|a| + |t|] == b[..|t|];
    assert OccursAt(a + b, t, |a|);
    assert b[..|t|][0] == t[0];
    forall j: nat | j < |a| ensures !OccursAt(a + b, t, j) {
      if OccursAt(a + b, t, j) { NoStraddle(a, b, t, j); }
    }
    FirstIsIndex(a + b, t, |a|);
  }

  lemma FirstIsIndex(s: string, t: string, i: nat)
    requires OccursAt(s, t, i) && forall j: nat :: j < i ==> !OccursAt(s, t, j)
    ensures IndexFrom(s, t, 0) == Some(i)
  {
    hide OccursAt;
  }

  // ----- injection -----

  function Block(marker: string, body: string, end: string): string {
    (marker + "\n" + body) + end
  }

  // The stretch of the content that the block takes the place of; None when it is appended.
  function Region(c: string, marker: string, end: string): (r: Option<(nat, nat)>)
    ensures r.Some? ==> r.value.0 <= r.value.1 <= |c| && OccursAt(c, marker, r.value.0)
  {
    match IndexFrom(c, marker, 0)
    case None => None
    case Some(s) =>
      match IndexFrom(c, end, s)
      case Some(e) => Some((s, e + |end|))
      case None =>
        match IndexFrom(c, "\n", s)
        case None => Some((s, |c|))
        case Some(l) => Some((s, l))
  }

  function Inject(c: string, marker: string, body: string, end: string): string {
    var block := Block(marker, body, end);
    match Region(c, marker, end)
    case Some((s, e)) => c[..s] + block + c[e..]
    case None => c + (if c != "" && c[|c| - 1] == '\n' then "" else "\n") + "\n" + block + "\n"
  }

  // What comes before and after the block once it is injected.
  function Before(c: string, marker: string, end: string): string {
    match Region(c, marker, end)
    case Some((s, _)) => c[..s]
    case None => c + (if c != "" && c[|c| - 1] == '\n' then "" else "\n") + "\n"
  }

  function Rest(c: string, marker: string, end: string): string {
    match Region(c, marker, end)
    case Some((_, e)) => c[e..]
    case None => "\n"
  }

  ghost predicate FirstFrom(s: string, t: string, from: nat, i: nat) {
    from <= i && OccursAt(s, t, i) && forall j: nat :: from <= j < i ==> !OccursAt(s, t, j)
  }

  ghost predicate NoneFrom(s: string, t: string, from: nat) {
    forall j: nat :: from <= j ==> !OccursAt(s, t, j)
  }

  // From the first marker, to behind the first end marker after it, or, without one, to the end of its line.
  ghost predicate Stretch(c: string, marker: string, end: string, s: nat, e: nat) {
    && FirstFrom(c, marker, 0, s)
    && if NoneFrom(c, end, s) then (if NoneFrom(c, "\n", s) then e == |c| else FirstFrom(c, "\n", s, e))
       else |end| <= e && FirstFrom(c, end, s, e - |end|)
  }

  lemma FirstIsUnique(s: string, t: string, from: nat, i: nat, j: nat)
    requires FirstFrom(s, t, from, i) && FirstFrom(s, t, from, j)
    ensures i == j
  {
  }

  // The code replaces that stretch and no other.
  lemma RegionIsStretch(c: string, marker: string, end: string)
    ensures forall s: nat, e: nat :: Stretch(c, marker, end, s, e) <==> Region(c, marker, end) == Some((s, e))
  {
    forall s: nat, e: nat ensures Stretch(c, marker, end, s, e) <==> Region(c, marker, end) == Some((s, e)) {
      var first := IndexFrom(c, marker, 0);
      if first.Some? {
        assert FirstFrom(c, marker, 0, first.value);
        if FirstFrom(c, marker, 0, s) { FirstIsUnique(c, marker, 0, s, first.value); }
        EndOfStretch(c, end, first.value, e);
      }
    }
  }

  lemma EndOfStretch(c: string, end: string, s: nat, e: nat)
    requires s <= |c|
    ensures match IndexFrom(c, end, s)
            case Some(x) => !NoneFrom(c, end, s) && (|end| <= e && FirstFrom(c, end, s, e - |end|) <==> e == x + |end|)
            case None => NoneFrom(c, end, s) &&
                         match IndexFrom(c, "\n", s)
                         case Some(x) => !NoneFrom(c, "\n", s) && (FirstFrom(c, "\n", s, e) <==> e == x)
                         case None => NoneFrom(c, "\n", s)
  {
    hide OccursAt;
    match IndexFrom(c, end, s) {
      case Some(x) =>
        assert FirstFrom(c, end, s, x);
        if |end| <= e && FirstFrom(c, end, s, e - |end|) { FirstIsUnique(c, end, s, e - |end|, x); }
      case None =>
        if IndexFrom(c, "\n", s).Some? {
          var x := IndexFrom(c, "\n", s).value;
          assert FirstFrom(c, "\n", s, x);
          if FirstFrom(c, "\n", s, e) { FirstIsUnique(c, "\n", s, e, x); }
        }
    }
  }

  /** The result is the block between what was before it and what was after it: nothing outside the
      replaced stretch changes, and appending adds only the newlines that put the block on its own line. */
  lemma InjectKeepsTheRest(c: string, marker: string, body: string, end: string)
    requires Tag(marker) && Tag(end)
    ensures Inject(c, marker, body, end) == Before(c, marker, end) + Block(marker, body, end) + Rest(c, marker, end)
    ensures !Occurs(Before(c, marker, end), marker)
    ensures match Region(c, marker, end)
            case Some((s, e)) => Stretch(c, marker, end, s, e) && c == Before(c, marker, end) + c[s..e] + Rest(c, marker, end)
            case None => !Occurs(c, marker)
  {
    assert marker != "";
    RegionIsStretch(c, marker, end);
    hide OccursAt, Block, Stretch;
    match Region(c, marker, end) {
      case Some((s, e)) =>
        PrefixHasNone(c, marker, s);
        assert c == c[..s] + c[s..e] + c[e..];
      case None =>
        AppendHasNone(c, marker, if c != "" && c[|c| - 1] == '\n' then "\n" else "\n" + "\n");
        AppendShape(c, marker, body, end);
    }
  }

  lemma AppendShape(c: string, marker: string, body: string, end: string)
    requires Region(c, marker, end).None?
    ensures Inject(c, marker, body, end) == Before(c, marker, end) + Block(marker, body, end) + Rest(c, marker, end)
    ensures Before(c, marker, end) == c + (if c != "" && c[|c| - 1] == '\n' then "\n" else "\n" + "\n")
  {
    hide Block, Region;
    var pad := if c != "" && c[|c| - 1] == '\n' then "" else "\n";
    assert c + pad + "\n" == c + (pad + "\n");
    assert pad + "\n" == if c != "" && c[|c| - 1] == '\n' then "\n" else "\n" + "\n";
  }

  lemma PrefixHasNone(c: string, t: string, s: nat)
    requires t != "" && s <= |c| && IndexFrom(c, t, 0) == Some(s)
    ensures !Occurs(c[..s], t)
  {
    if Occurs(c[..s], t) {
      var i: nat :| OccursAt(c[..s], t, i);
      assert c[i..i + |t|] == c[..s][i..i + |t|];
      assert OccursAt(c, t, i);
      assert false;
    }
  }

  lemma NoneInTail(c: string, t: string, tail: string, i: nat)
    requires Tag(t) && tail != "" && forall k :: 0 <= k < |tail| ==> tail[k] == '\n'
    ensures OccursAt(c + tail, t, i) ==> OccursAt(c, t, i)
  {
    if OccursAt(c + tail, t, i) {
      CharsOf(c + tail, t, i);
      assert forall k :: |c| <= k < |c + tail| ==> (c + tail)[k] == tail[k - |c|];
      assert (c + tail)[i] == t[0];
      NoStraddle(c, tail, t, i);
    }
  }

  lemma AppendHasNone(c: string, t: string, tail: string)
    requires Tag(t) && !Occurs(c, t) && tail != "" && forall i :: 0 <= i < |tail| ==> tail[i] == '\n'
    ensures !Occurs(c + tail, t)
  {
    forall i: nat ensures !OccursAt(c + tail, t, i) {
      NoneInTail(c, t, tail, i);
    }
  }

  // Where the block stands, the next injection finds it: its own marker, and the first end marker after it.
  lemma RegionOfBlock(pre: string, marker: string, body: string, end: string, post: string)
    requires Tag(marker) && Tag(end) && marker != end && !Occurs(pre, marker) && !Occurs(marker + "\n" + body, end)
    ensures Region(pre + Block(marker, body, end) + post, marker, end) == Some((|pre|, |pre| + |Block(marker, body, end)|))
  {
    hide Tag, OccursAt, Occurs, Block;
    BlockOpens(pre, marker, body, end, post);
    BlockCloses(pre, marker, body, end, post);
  }

  lemma BlockCloses(pre: string, marker: string, body: string, end: string, post: string)
    requires Tag(end) && !Occurs(marker + "\n" + body, end)
    ensures var block := Block(marker, body, end);
            IndexFrom(pre + block + post, end, |pre|) == Some(|pre| + |block| - |end|)
  {
    var head := marker + "\n" + body;
    var block := Block(marker, body, end);
    assert block == head + end;
    hide Block;
    var rest := end + post;
    assert OccursAt(rest, end, 0) by { assert rest[..|end|] == end; }
    FirstAfter(head, rest, end);
    hide OccursAt, Occurs;
    ShiftedIndex(pre, head + rest, end);
    assert pre + block + post == pre + (head + rest);
  }

  lemma BlockOpens(pre: string, marker: string, body: string, end: string, post: string)
    requires Tag(marker) && !Occurs(pre, marker)
    ensures IndexFrom(pre + Block(marker, body, end) + post, marker, 0) == Some(|pre|)
  {
    var rest := Block(marker, body, end) + post;
    assert pre + Block(marker, body, end) + post == pre + rest;
    assert OccursAt(rest, marker, 0) by { assert rest[..|marker|] == marker; }
    FirstAfter(pre, rest, marker);
  }

  lemma OccursShift(pre: string, s: string, t: string, j: nat)
    ensures OccursAt(pre + s, t, |pre| + j) <==> OccursAt(s, t, j)
  {
    if j + |t| <= |s| { assert (pre + s)[|pre| + j..|pre| + j + |t|] == s[j..j + |t|]; }
  }

  // Searching from a position is searching what follows it.
  lemma {:induction false} ShiftedIndex(pre: string, s: string, t: string)
    ensures match IndexFrom(s, t, 0)
            case Some(i) => IndexFrom(pre + s, t, |pre|) == Some(|pre| + i)
            case None => IndexFrom(pre + s, t, |pre|) == None
  {
    hide OccursAt, IndexFrom;
    var r, q := IndexFrom(pre + s, t, |pre|), IndexFrom(s, t, 0);
    if r.Some? {
      OccursShift(pre, s, t, r.value - |pre|);
      assert q.Some?;
    }
    if q.Some? {
      OccursShift(pre, s, t, q.value);
      assert r.Some?;
    }
  }

  // An end marker inside the body cuts the replaced stretch short.
  lemma EndInBodyShortens(pre: string, marker: string, body: string, end: string, post: string)
    requires Tag(marker) && Tag(end) && !Occurs(pre, marker) && Occurs(marker + "\n" + body, end)
    ensures var c := pre + Block(marker, body, end) + post;
            Region(c, marker, end).Some? && Region(c, marker, end).value.0 == |pre| &&
            Region(c, marker, end).value.1 < |pre| + |Block(marker, body, end)|
  {
    assert end != "";
    hide Tag, Block;
    BlockOpens(pre, marker, body, end, post);
    EndComesEarly(pre, marker, body, end, post);
  }

  lemma EndComesEarly(pre: string, marker: string, body: string, end: string, post: string)
    requires Occurs(marker + "\n" + body, end)
    ensures var block := Block(marker, body, end);
            var e := IndexFrom(pre + block + post, end, |pre|);
            e.Some? && (end != "" ==> e.value + |end| < |pre| + |block|)
  {
    var head := marker + "\n" + body;
    var block := Block(marker, body, end);
    assert block == head + end;
    hide Block;
    var i: nat :| OccursAt(head, end, i);
    assert i + |end| <= |head|;
    OccursInContext("", head, end + post, end, i);
    assert "" + head + (end + post) == block + post;
    hide OccursAt;
    OccursShift(pre, block + post, end, i);
    assert pre + block + post == pre + (block + post);
    var e := IndexFrom(pre + block + post, end, |pre|);
    assert e.Some? && e.value <= |pre| + i;
  }

  /** Injecting twice equals injecting once exactly when the body does not contain the agent's own end
      marker. It does not matter whether the block was appended, replaced, or had lost its end marker. */
  lemma InjectTwiceIff(c: string, marker: string, body: string, end: string)
    requires Tag(marker) && Tag(end) && marker != end
    ensures var once := Inject(c, marker, body, end);
            Inject(once, marker, body, end) == once <==> !Occurs(marker + "\n" + body, end)
  {
    InjectKeepsTheRest(c, marker, body, end);
    var pre, post, block := Before(c, marker, end), Rest(c, marker, end), Block(marker, body, end);
    var once := pre + block + post;
    if !Occurs(marker + "\n" + body, end) {
      RegionOfBlock(pre, marker, body, end, post);
      assert once[..|pre|] == pre && once[|pre| + |block|..] == post;
    } else {
      EndInBodyShortens(pre, marker, body, end, post);
      var e := Region(once, marker, end).value.1;
      var twice := once[..|pre|] + block + once[e..];
      assert |twice| > |once|;
    }
  }

  // ----- agents -----

  const OPEN := "<!-- gentle-ai:custom-agent:"
  const CLOSE := "<!-- /gentle-ai:custom-agent:"
  const TAIL := " -->"

  predicate NameChar(c: char) {
    c == '-' || 'a' <= c <= 'z' || '0' <= c <= '9'
  }

  predicate ValidName(n: string) {
    n != "" && forall i :: 0 <= i < |n| ==> NameChar(n[i])
  }

  function Marker(n: string): string {
    OPEN + n + TAIL
  }

  function EndMarker(n: string): string {
    CLOSE + n + TAIL
  }

  // extractName
  function NameIn(marker: string): string {
    if |marker| >= |OPEN| + |TAIL| && marker[..|OPEN|] == OPEN && marker[|marker| - |TAIL|..] == TAIL
    then marker[|OPEN|..|marker| - |TAIL|] else ""
  }

  lemma NameInMarker(n: string)
    ensures NameIn(Marker(n)) == n
  {
    hide OPEN, TAIL;
    var m := Marker(n);
    assert m[..|OPEN|] == OPEN && m[|m| - |TAIL|..] == TAIL && m[|OPEN|..|m| - |TAIL|] == n;
  }

  lemma LiteralsAreTags()
    ensures Tag(OPEN) && Tag(CLOSE)
    ensures forall i :: 0 <= i < |TAIL| ==> TAIL[i] != '<' && TAIL[i] != '\n'
    ensures TAIL[0] == ' ' && |OPEN| < |CLOSE|
  {
  }

  lemma MarkersAreTags(n: string)
    requires ValidName(n)
    ensures Tag(Marker(n)) && Tag(EndMarker(n))
  {
    LiteralsAreTags();
    hide OPEN, CLOSE, TAIL;
  }

  lemma NamesAreNotTags(n: string)
    requires ValidName(n)
    ensures forall i :: 0 <= i < |n| ==> n[i] != '<' && n[i] != ' '
  {
  }

  // A tag inside a tag starts where it starts.
  lemma TagInTag(a: string, b: string, i: nat)
    requires Tag(a) && Tag(b) && OccursAt(b, a, i)
    ensures i == 0
  {
    assert b[i..i + |a|][0] == '<';
  }

  // No agent's marker or end marker occurs in those of another, however alike the names.
  lemma OtherTagsApart(n: string, m: string)
    requires ValidName(n) && ValidName(m) && n != m
    ensures !Occurs(Marker(m), Marker(n)) && !Occurs(EndMarker(m), Marker(n))
    ensures !Occurs(Marker(m), EndMarker(n)) && !Occurs(EndMarker(m), EndMarker(n))
  {
    MarkersAreTags(n);
    MarkersAreTags(m);
    OpenersDiffer();
    NameIsTheWhole(OPEN, n, m);
    NameIsTheWhole(CLOSE, n, m);
    forall i: nat ensures !OccursAt(Marker(m), Marker(n), i) { if OccursAt(Marker(m), Marker(n), i) { TagInTag(Marker(n), Marker(m), i); } }
    forall i: nat ensures !OccursAt(EndMarker(m), EndMarker(n), i) {
      if OccursAt(EndMarker(m), EndMarker(n), i) { TagInTag(EndMarker(n), EndMarker(m), i); }
    }
    forall i: nat ensures !OccursAt(EndMarker(m), Marker(n), i) {
      if OccursAt(EndMarker(m), Marker(n), i) { TagInTag(Marker(n), EndMarker(m), i); SixthCharacter(m, n); }
    }
    forall i: nat ensures !OccursAt(Marker(m), EndMarker(n), i) {
      if OccursAt(Marker(m), EndMarker(n), i) { TagInTag(EndMarker(n), Marker(m), i); SixthCharacter(n, m); }
    }
  }

  lemma OpenersDiffer()
    ensures OPEN[5] == 'g' && CLOSE[5] == '/'
  {
  }

  lemma SameSixth(a: string, b: string)
    requires |b| > 5
    ensures OccursAt(a, b, 0) ==> a[5] == b[5]
  {
    if OccursAt(a, b, 0) { CharsOf(a, b, 0); }
  }

  lemma SixthCharacter(m: string, n: string)
    ensures Marker(n)[5] != EndMarker(m)[5]
    ensures !OccursAt(EndMarker(m), Marker(n), 0) && !OccursAt(Marker(n), EndMarker(m), 0)
  {
    OpenersDiffer();
    SameSixth(EndMarker(m), Marker(n));
    SameSixth(Marker(n), EndMarker(m));
  }

  lemma NameIsTheWhole(open: string, n: string, m: string)
    requires ValidName(n) && ValidName(m) && n != m
    ensures !OccursAt(open + m + TAIL, open + n + TAIL, 0)
  {
    NamesAreNotTags(n);
    NamesAreNotTags(m);
    assert TAIL[0] == ' ';
    hide TAIL, ValidName;
    var a, b := open + n + TAIL, open + m + TAIL;
    assert a[|open| + |n|] == ' ' && a[|open|..|open| + |n|] == n && b[|open|..|open| + |m|] == m;
    assert |n| < |m| ==> b[|open| + |n|] == m[|n|];
    assert |n| < |m| && |a| <= |b| ==> b[..|a|][|open| + |n|] == b[|open| + |n|];
    assert |n| == |m| ==> b[..|a|][|open|..|open| + |n|] == b[|open|..|open| + |n|];
  }

  // ----- another agent's block -----

  // Another agent's block, standing on lines of its own, that does not quote this agent's tags.
  ghost predicate OtherBlock(c: string, i: nat, n: string, m: string, body: string) {
    && ValidName(n) && ValidName(m) && n != m
    && OccursAt(c, Block(Marker(m), body, EndMarker(m)), i) && (i == 0 || (i <= |c| && c[i - 1] == '\n'))
    && !Occurs(Block(Marker(m), body, EndMarker(m)), Marker(n))
    && !Occurs(Block(Marker(m), body, EndMarker(m)), EndMarker(n))
  }

  lemma SliceOfSlice(c: string, i: nat, j: nat, a: nat, b: nat)
    requires i <= j <= |c| && a <= b <= j - i
    ensures c[i..j][a..b] == c[i + a..i + b]
  {
    assert forall k :: 0 <= k < b - a ==> c[i..j][a..b][k] == c[i + a + k];
  }

  // Where a tag can stand relative to a block that begins with '<' and ends with another tag.
  lemma TagAgainstBlock(c: string, i: nat, block: string, t: string, last: string, s: nat)
    requires Tag(t) && Tag(last) && OccursAt(c, block, i) && OccursAt(c, t, s)
    requires |last| <= |block| && OccursAt(block, last, |block| - |last|) && block[0] == '<'
    ensures s + |t| <= i || i + |block| <= s || (i <= s && OccursAt(block, t, s - i)) || OccursAt(t, last, 0)
  {
    var k := i + |block| - |last|;
    CharsOf(c, block, i);
    CharsOf(c, t, s);
    CharsOf(block, last, |block| - |last|);
    assert forall j :: k <= j < k + |last| ==> c[j] == last[j - k];
    assert c[i] == '<' && c[k] == '<' && c[s] == '<';
    if i <= s && s + |t| <= i + |block| {
      SliceOfSlice(c, i, i + |block|, s - i, s - i + |t|);
    } else if s == k && s + |t| > k + |last| {
      assert forall j :: 0 <= j < |last| ==> t[j] == last[j];
      assert t[..|last|] == last;
    }
  }

  // This agent's tag neither starts nor ends inside that block.
  lemma TagOutsideBlock(c: string, i: nat, block: string, t: string, last: string, s: nat)
    requires Tag(t) && Tag(last) && OccursAt(c, block, i) && OccursAt(c, t, s) && !Occurs(block, t)
    requires |last| <= |block| && OccursAt(block, last, |block| - |last|) && block[0] == '<' && !OccursAt(t, last, 0)
    ensures s + |t| <= i || i + |block| <= s
  {
    TagAgainstBlock(c, i, block, t, last, s);
    hide OccursAt;
  }

  /** Another agent's block survives, whatever its name: in the result it stands unchanged at its own place,
      or as far along as the text before it became longer, unless it stood, whole, between this agent's own
      marker and end marker. */
  lemma OtherBlockSurvives(c: string, i: nat, n: string, body: string, m: string, other: string)
    requires OtherBlock(c, i, n, m, other)
    ensures var block := Block(Marker(m), other, EndMarker(m));
            var mine := Block(Marker(n), body, EndMarker(n));
            var result := Inject(c, Marker(n), body, EndMarker(n));
            match Region(c, Marker(n), EndMarker(n))
            case None => OccursAt(result, block, i)
            case Some((s, e)) =>
              if i + |block| <= s then OccursAt(result, block, i)
              else if e <= i then OccursAt(result, block, s + |mine| + (i - e))
              else s < i && i + |block| < e
  {
    hide Tag, ValidName, Marker, EndMarker, Block, Occurs, OccursAt, Inject, Before, Rest;
    if Region(c, Marker(n), EndMarker(n)).Some? {
      var block := Block(Marker(m), other, EndMarker(m));
      var (s, e) := Region(c, Marker(n), EndMarker(n)).value;
      RegionAvoids(c, i, n, m, other);
      if i + |block| <= s || e <= i { SurvivesReplacement(c, i, Marker(n), body, EndMarker(n), block); }
    } else {
      SurvivesAppending(c, i, Marker(n), body, EndMarker(n), Block(Marker(m), other, EndMarker(m)));
    }
  }

  lemma SurvivesReplacement(c: string, i: nat, marker: string, body: string, end: string, block: string)
    requires Region(c, marker, end).Some? && OccursAt(c, block, i)
    requires var (s, e) := Region(c, marker, end).value; i + |block| <= s || e <= i
    ensures var (s, e) := Region(c, marker, end).value;
            var result := Inject(c, marker, body, end);
            if i + |block| <= s then OccursAt(result, block, i)
            else OccursAt(result, block, s + |Block(marker, body, end)| + (i - e))
  {
    hide Block;
    var (s, e) := Region(c, marker, end).value;
    var mid := Block(marker, body, end);
    if i + |block| <= s {
      KeptBefore(c, block, i, s, mid + c[e..]);
      assert c[..s] + mid + c[e..] == c[..s] + (mid + c[e..]);
    } else {
      KeptAfter(c, block, i, e, c[..s] + mid);
    }
  }

  lemma SurvivesAppending(c: string, i: nat, marker: string, body: string, end: string, block: string)
    requires Region(c, marker, end).None? && OccursAt(c, block, i)
    ensures OccursAt(Inject(c, marker, body, end), block, i)
  {
    hide Block;
    var mid := Block(marker, body, end);
    var pad := if c != "" && c[|c| - 1] == '\n' then "" else "\n";
    KeptBefore(c, block, i, |c|, pad + "\n" + mid + "\n");
    assert c[..|c|] == c;
    assert c + pad + "\n" + mid + "\n" == c + (pad + "\n" + mid + "\n");
  }

  lemma KeptBefore(c: string, t: string, i: nat, s: nat, rest: string)
    requires OccursAt(c, t, i) && i + |t| <= s <= |c|
    ensures OccursAt(c[..s] + rest, t, i)
  {
    assert (c[..s] + rest)[i..i + |t|] == c[i..i + |t|];
  }

  lemma KeptAfter(c: string, t: string, i: nat, e: nat, pre: string)
    requires OccursAt(c, t, i) && e <= i && e <= |c|
    ensures OccursAt(pre + c[e..], t, |pre| + (i - e))
  {
    assert (pre + c[e..])[|pre| + (i - e)..|pre| + (i - e) + |t|] == c[i..i + |t|];
  }

  lemma BlockEnds(m: string, body: string)
    ensures var block := Block(Marker(m), body, EndMarker(m));
            |EndMarker(m)| <= |block| && OccursAt(block, EndMarker(m), |block| - |EndMarker(m)|) && block[0] == '<' && |block| > 0
  {
    hide Marker, EndMarker;
    assert Marker(m) != "" && Marker(m)[0] == '<' by { MarkerOpens(m); }
  }

  lemma MarkerOpens(m: string)
    ensures Marker(m) != "" && Marker(m)[0] == '<'
  {
  }

  lemma NotInside(a: string, b: string)
    requires !Occurs(a, b)
    ensures !OccursAt(a, b, 0)
  {
  }

  // The replaced stretch lies before that block, after it, or properly around it.
  lemma RegionAvoids(c: string, i: nat, n: string, m: string, other: string)
    requires OtherBlock(c, i, n, m, other) && Region(c, Marker(n), EndMarker(n)).Some?
    ensures var block := Block(Marker(m), other, EndMarker(m));
            var (s, e) := Region(c, Marker(n), EndMarker(n)).value;
            i + |block| <= s || e <= i || (s < i && i + |block| < e)
  {
    hide Marker, EndMarker, Block, Occurs, ValidName;
    var block := Block(Marker(m), other, EndMarker(m));
    var (s, e) := Region(c, Marker(n), EndMarker(n)).value;
    MarkersAreTags(n);
    MarkersAreTags(m);
    OtherTagsApart(n, m);
    OtherTagsApart(m, n);
    BlockEnds(m, other);
    NotInside(EndMarker(m), Marker(n));
    NotInside(Marker(n), EndMarker(m));
    NotInside(EndMarker(m), EndMarker(n));
    NotInside(EndMarker(n), EndMarker(m));
    TagOutsideBlock(c, i, block, Marker(n), EndMarker(m), s);
    var x := IndexFrom(c, EndMarker(n), s);
    if x.Some? {
      TagOutsideBlock(c, i, block, EndMarker(n), EndMarker(m), x.value);
    } else if s < i {
      assert c[i - 1] == '\n';
      NewlineBefore(c, s, Marker(n), i);
    }
  }

  // A line that ends before i is where the stretch without an end marker stops.
  lemma NewlineBefore(c: string, s: nat, t: string, i: nat)
    requires Tag(t) && OccursAt(c, t, s) && s < i <= |c| && c[i - 1] == '\n' && s <= |c|
    ensures var l := IndexFrom(c, "\n", s); l.Some? && l.value < i
  {
    assert c[i - 1..i] == "\n";
    assert OccursAt(c, "\n", i - 1);
  }

  // ----- the prompt file -----

  datatype Mode = Standalone | PhaseSupport(target: string) | NewPhase(name: string)
  datatype Agent = Agent(name: string, title: string, phrases: string, mode: Option<Mode>)

  function Body(a: Agent): string {
    match a.mode
    case Some(PhaseSupport(target)) =>
      "## Custom Agent: " + a.title + " (Phase Support)\n\n" +
      "This skill provides additional support for the `sdd-" + target + "` phase.\n" +
      "When working on tasks related to `" + target + "`, load the `" + a.name + "` skill for enhanced guidance.\n\n" +
      "Trigger phrases: " + a.phrases + "\n"
    case Some(NewPhase(name)) =>
      var phase := if name == "" then a.name else name;
      "## Custom Agent: " + a.title + " (New SDD Phase)\n\n" +
      "This skill adds a new phase `" + phase + "` to the SDD dependency graph.\n" +
      "Load the `" + a.name + "` skill when the orchestrator launches you for the `" + phase + "` phase.\n\n" +
      "Trigger phrases: " + a.phrases + "\n"
    case _ => "## Custom Agent: " + a.title + "\n\nTrigger: " + a.phrases + "\n"
  }

  predicate Ignored(a: Agent) {
    a.mode.None? || a.mode == Some(Standalone)
  }

  // replaceBlock
  method ReplaceBlock(text: string, marker: string, block: string) returns (r: string)
    ensures match Region(text, marker, EndMarker(NameIn(marker)))
            case Some((s, e)) => r == text[..s] + block + text[e..]
            case None => r == text + "\n" + block
  {
    hide EndMarker, NameIn;
    var end := EndMarker(NameIn(marker));
    var start := IndexFrom(text, marker, 0);
    if start.None? { return text + "\n" + block; }
    var found := IndexFrom(text, end, start.value);
    if found.Some? { return text[..start.value] + block + text[found.value + |end|..]; }
    var line := IndexFrom(text, "\n", start.value);
    if line.Some? { return text[..start.value] + block + text[line.value..]; }
    assert text[..start.value] + block + text[|text|..] == text[..start.value] + block;
    return text[..start.value] + block;
  }

  class PromptFile {
    var content: Option<string>  // None when there is no such file

    constructor (content: Option<string>)
      ensures this.content == content
    {
      this.content := content;
    }

    /** InjectSDDReference: nothing for a standalone agent, an error without a file, and otherwise the
        content with this agent's block in it. */
    method InjectReference(a: Agent) returns (ok: bool)
      modifies this
      ensures Ignored(a) ==> ok && content == old(content)
      ensures !Ignored(a) && old(content).None? ==> !ok && content.None?
      ensures !Ignored(a) && old(content).Some? ==>
                ok && content == Some(Inject(old(content).value, Marker(a.name), Body(a), EndMarker(a.name)))
    {
      hide Body, Marker, EndMarker, NameIn, Block, OccursAt, IndexFrom;
      if Ignored(a) { return true; }
      if content.None? { return false; }
      var text, marker := content.value, Marker(a.name);
      var block := Block(marker, Body(a), EndMarker(a.name));
      if IndexFrom(text, marker, 0).Some? {
        NameInMarker(a.name);
        text := ReplaceBlock(text, marker, block);
      } else {
        assert text + "" == text;
        if text == "" || text[|text| - 1] != '\n' { text := text + "\n"; }
        text := text + "\n" + block + "\n";
      }
      content := Some(text);
      return true;
    }
  }

  /** For any agent: injecting it twice is injecting it once exactly when its own end marker does not occur
      in its text. */
  lemma InjectAgentTwiceIff(c: string, a: Agent)
    requires ValidName(a.name)
    ensures var once := Inject(c, Marker(a.name), Body(a), EndMarker(a.name));
            Inject(once, Marker(a.name), Body(a), EndMarker(a.name)) == once <==>
              !Occurs(Marker(a.name) + "\n" + Body(a), EndMarker(a.name))
  {
    hide Body;
    MarkersAreTags(a.name);
    SixthCharacter(a.name, a.name);
    InjectTwiceIff(c, Marker(a.name), Body(a), EndMarker(a.name));
  }

  // The failing input: an agent whose title is its own end marker. Every further injection changes the file.
  lemma TitledWithItsEndMarker(c: string, name: string)
    requires ValidName(name)
    ensures var a := Agent(name, EndMarker(name), "", Some(PhaseSupport("apply")));
            var once := Inject(c, Marker(name), Body(a), EndMarker(name));
            Inject(once, Marker(name), Body(a), EndMarker(name)) != once
  {
    hide Body, EndMarker, Marker, Inject, Occurs, OccursAt, ValidName;
    var a := Agent(name, EndMarker(name), "", Some(PhaseSupport("apply")));
    InjectAgentTwiceIff(c, a);
    BodyHasTitle(a);
    OccursAfter(Marker(name) + "\n", Body(a), a.title);
  }

  lemma OccursAfter(pre: string, mid: string, t: string)
    requires Occurs(mid, t)
    ensures Occurs(pre + mid, t)
  {
    var i: nat :| OccursAt(mid, t, i);
    OccursInContext(pre, mid, "", t, i);
    assert pre + mid + "" == pre + mid;
  }

  lemma BodyHasTitle(a: Agent)
    requires a.mode == Some(PhaseSupport("apply"))
    ensures Occurs(Body(a), a.title)
  {
    var pre := "## Custom Agent: ";
    var post := Body(a)[|pre + a.title|..];
    assert Body(a)[..|pre + a.title|] == pre + a.title;
    assert Body(a) == pre + a.title + post;
    assert a.title[0..|a.title|] == a.title;
    OccursInContext(pre, a.title, post, a.title, 0);
  }
}
