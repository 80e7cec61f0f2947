/**
 Where links lead, in terms of the segments of their text, and what a snapshot through them holds.
 */
module SyncPaths {
  import opened Wrappers
  import opened SyncFiles

  // A name of something in a directory.
  predicate PlainName(s: string) {
    s != "" && s != "." && s != ".."
  }

  predicate Plain(segments: seq<string>) {
    forall i :: 0 <= i < |segments| ==> PlainName(segments[i])
  }

  // ----- cleaning -----

  lemma FirstSegment(done: Location, segments: seq<string>)
    requires segments != []
    ensures Clean(done, segments) == Clean(Clean(done, [segments[0]]), segments[1..])
  {
    assert [segments[0]][1..] == [];
  }

  /** Cleaning goes segment by segment: what it does to a path it does to its parts in turn. */
  lemma {:induction false} CleanAppends(done: Location, first: seq<string>, rest: seq<string>)
    ensures Clean(done, first + rest) == Clean(Clean(done, first), rest)
    decreases |first|
  {
    if first == [] {
      assert first + rest == rest;
    } else {
      assert (first + rest)[1..] == first[1..] + rest;
      FirstSegment(done, first);
      FirstSegment(done, first + rest);
      CleanAppends(Clean(done, [first[0]]), first[1..], rest);
    }
  }

  /** Plain segments are kept. */
  lemma {:induction false} CleanKeepsPlain(done: Location, segments: seq<string>)
    requires Plain(segments)
    ensures Clean(done, segments) == done + segments
    decreases |segments|
  {
    if segments != [] {
      CleanKeepsPlain(done + [segments[0]], segments[1..]);
      assert done + [segments[0]] + segments[1..] == done + segments;
    }
  }

  /** A segment that is empty or "." changes nothing, wherever it stands. */
  lemma {:induction false} DotsChangeNothing(done: Location, before: seq<string>, dot: string, behind: seq<string>)
    requires dot == "." || dot == ""
    ensures Clean(done, before + [dot] + behind) == Clean(done, before + behind)
  {
    CleanAppends(done, before + [dot], behind);
    CleanAppends(done, before, [dot]);
    CleanAppends(done, before, behind);
    assert Clean(Clean(done, before), [dot]) == Clean(done, before);
  }

  /** A ".." takes back the plain segment before it, and at the root nothing. */
  lemma {:induction false} UpTakesBack(done: Location, before: seq<string>, name: string, behind: seq<string>)
    requires PlainName(name)
    ensures Clean(done, before + [name, ".."] + behind) == Clean(done, before + behind)
    ensures Clean([], [".."] + behind) == Clean([], behind)
  {
    var at := Clean(done, before);
    CleanAppends(done, before + [name, ".."], behind);
    CleanAppends(done, before, [name, ".."]);
    CleanAppends(done, before, behind);
    assert [name] + [".."] == [name, ".."];
    CleanAppends(at, [name], [".."]);
    CleanKeepsPlain(at, [name]);
    assert Clean(at + [name], [".."]) == at;
    assert ([".."] + behind)[1..] == behind;
  }

  /** What is left is a proper location: no empty segment, no "." and no "..". */
  lemma {:induction false} CleanIsPlain(done: Location, segments: seq<string>)
    requires Plain(done)
    ensures Plain(Clean(done, segments))
    decreases |segments|
  {
    if segments != [] {
      FirstSegment(done, segments);
      assert [segments[0]][1..] == [];
      CleanIsPlain(Clean(done, [segments[0]]), segments[1..]);
    }
  }

  // ----- where a link leads -----

  /** A relative link leads where an absolute link does that spells out its directory first. */
  lemma {:induction false} RelativeIsJoined(dir: Location, name: string, at: Location, segments: seq<string>)
    requires Plain(dir)
    ensures Destination(dir + [name], LinkText(false, segments)) == Destination(at, LinkText(true, dir + segments))
  {
    CleanAppends([], dir, segments);
    CleanKeepsPlain([], dir);
    assert [] + dir == dir && (dir + [name])[..|dir|] == dir;
  }

  /** With plain segments: an absolute link leads to exactly them, a relative one to its directory followed by
      them, and each leading ".." leads one directory up. */
  lemma {:induction false} LinksLead(dir: Location, parent: string, name: string, segments: seq<string>)
    requires Plain(segments)
    ensures Destination(dir + [name], LinkText(true, segments)) == segments
    ensures Destination(dir + [name], LinkText(false, segments)) == dir + segments
    ensures Destination(dir + [parent, name], LinkText(false, [".."] + segments)) == dir + segments
    ensures Destination([name], LinkText(false, [".."] + segments)) == segments
  {
    CleanKeepsPlain([], segments);
    CleanKeepsPlain(dir, segments);
    assert (dir + [name])[..|dir|] == dir && [] + segments == segments;
    assert (dir + [parent, name])[..|dir| + 1] == dir + [parent];
    assert ([".."] + segments)[1..] == segments && (dir + [parent])[..|dir|] == dir;
  }

  /** A chain stays among proper locations. */
  lemma {:induction false} ChainsArePlain(fs: Files, start: Location, n: nat)
    requires Plain(start)
    ensures Plain(After(fs, start, n))
  {
    if n > 0 {
      ChainsArePlain(fs, start, n - 1);
      var at := After(fs, start, n - 1);
      if IsLink(fs, at) {
        var text := fs[at].text;
        CleanIsPlain(if text.absolute || at == [] then [] else at[..|at| - 1], text.segments);
      }
    }
  }

  // ----- snapshots through links -----

  // What is there can be looked up.
  lemma PresentIsReachable(fs: Files, p: Location)
    requires Tree(fs) && p in fs && p != []
    ensures !Blocked(fs, p)
  {
  }

  // A chain has one end.
  lemma {:induction false} EndIsUnique(fs: Files, start: Location, n: nat)
    requires LinksFor(fs, start, n) && !IsLink(fs, After(fs, start, n))
    ensures EndOf(fs, start) == Some(After(fs, start, n))
  {
    hide After, EndOf;
    ResolutionIsExact(fs, start);
    var m: nat :| LinksFor(fs, start, m) && After(fs, start, m) == EndOf(fs, start).value;
    assert m == n;
  }

  // A link ends where its destination does.
  lemma {:induction false} LinkEndsThere(fs: Files, p: Location)
    requires IsLink(fs, p)
    ensures EndOf(fs, p) == EndOf(fs, Hop(fs, p))
  {
    hide EndOf, Hop;
    var q := Hop(fs, p);
    forall n: nat ensures After(fs, q, n) == After(fs, p, n + 1) { AfterOne(fs, p, n); }
    ResolutionIsExact(fs, p);
    ResolutionIsExact(fs, q);
    if EndOf(fs, q).Some? {
      var m: nat :| LinksFor(fs, q, m) && After(fs, q, m) == EndOf(fs, q).value;
      forall k: nat | k < m + 1 ensures IsLink(fs, After(fs, p, k)) {
        if k > 0 { assert After(fs, p, k) == After(fs, q, k - 1); }
      }
      EndIsUnique(fs, p, m + 1);
    } else if EndOf(fs, p).Some? {
      var n: nat :| LinksFor(fs, p, n) && After(fs, p, n) == EndOf(fs, p).value;
      assert n > 0 by { assert After(fs, p, 0) == p; }
      assert After(fs, q, n - 1) == After(fs, p, n) && IsLink(fs, After(fs, q, n - 1));
    }
  }

  lemma {:induction false} AfterOne(fs: Files, p: Location, n: nat)
    ensures After(fs, Hop(fs, p), n) == After(fs, p, n + 1)
  {
    if n > 0 { AfterOne(fs, p, n - 1); }
  }

  /** What a snapshot says: that nothing is there, the file that is, or where the chain ends and what is read
      there; and exactly when there is none. */
  lemma {:induction false} SnapshotIs(fs: Files, p: Location)
    ensures SnapshotOf(fs, p) == Some(Absent) <==> !Blocked(fs, p) && p !in fs
    ensures forall b :: SnapshotOf(fs, p) == Some(File(b)) <==>
                          !Blocked(fs, p) && p in fs && fs[p] == Regular(b.data, b.mode)
    ensures forall text, end, body :: SnapshotOf(fs, p) == Some(LinkTo(text, end, Some(body))) <==>
                                        && !Blocked(fs, p) && p in fs && fs[p] == Link(text) && EndOf(fs, p) == Some(end)
                                        && !Blocked(fs, end) && end in fs && fs[end] == Regular(body.data, body.mode)
    ensures forall text, end :: SnapshotOf(fs, p) == Some(LinkTo(text, end, None)) <==>
                                  && !Blocked(fs, p) && p in fs && fs[p] == Link(text) && EndOf(fs, p) == Some(end)
                                  && !Blocked(fs, end) && end !in fs
  {
    hide Blocked;
    if IsLink(fs, p) { LinkEndsThere(fs, p); }
  }

  /** A relative link to a regular file beside or below it resolves to that file, and its snapshot holds the
      bytes and the mode of the file. */
  lemma {:induction false} SiblingLinks(fs: Files, dir: Location, name: string, segments: seq<string>)
    requires Tree(fs) && Plain(segments) && segments != []
    requires dir + [name] in fs && fs[dir + [name]] == Link(LinkText(false, segments))
    requires dir + segments in fs && fs[dir + segments].Regular?
    ensures EndOf(fs, dir + [name]) == Some(dir + segments)
    ensures SnapshotOf(fs, dir + [name]) ==
            Some(LinkTo(LinkText(false, segments), dir + segments,
                        Some(Body(fs[dir + segments].data, fs[dir + segments].mode))))
  {
    hide Blocked, Tree;
    LinksLead(dir, "", name, segments);
    LinkEndsThere(fs, dir + [name]);
    PresentIsReachable(fs, dir + [name]);
    PresentIsReachable(fs, dir + segments);
    SnapshotIs(fs, dir + [name]);
  }
}
