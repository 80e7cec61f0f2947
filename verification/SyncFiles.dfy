/**
 Files managed by sync: symlink chains, snapshots, and their restoration.

 Locations are absolute, lexically cleaned paths. No directory on the way to a location is a link.
 */
module SyncFiles {
  import opened Wrappers

  type Location = seq<string>
  type Bytes = seq<bv8>
  type Mode = nat

  // A link as written in the file system: absolute, or relative to its own directory.
  datatype LinkText = LinkText(absolute: bool, segments: seq<string>)

  datatype Node = Regular(data: Bytes, mode: Mode) | Link(text: LinkText) | Directory

  type Files = map<Location, Node>

  predicate Below(dir: Location, l: Location) {
    |dir| < |l| && l[..|dir|] == dir
  }

  // A file system: what has something below it is a directory.
  ghost predicate Tree(fs: Files) {
    forall l, a :: l in fs && Below(a, l) ==> (a != [] ==> a in fs) && (a in fs ==> fs[a].Directory?)
  }

  // The node at l keeps p from being looked up: p would be below it, and it is no directory.
  predicate Blocks(fs: Files, l: Location, p: Location) {
    l in fs && Below(l, p) && !fs[l].Directory?
  }

  // No file can be there. The root is a directory.
  predicate Blocked(fs: Files, p: Location) {
    p == [] || exists l :: l in fs && Blocks(fs, l, p)
  }

  // ----- following links -----

  // Lexical cleaning of an absolute path: "." disappears, ".." drops the segment before it.
  function Clean(done: Location, segments: seq<string>): Location
    decreases |segments|
  {
    if segments == [] then done
    else
      var s := segments[0];
      var next := if s == "." || s == "" then done
                  else if s == ".." then (if done == [] then [] else done[..|done| - 1])
                  else done + [s];
      Clean(next, segments[1..])
  }

  function Destination(at: Location, text: LinkText): Location {
    Clean(if text.absolute || at == [] then [] else at[..|at| - 1], text.segments)
  }

  predicate IsLink(fs: Files, l: Location) {
    l in fs && fs[l].Link?
  }

  function Hop(fs: Files, l: Location): Location {
    if IsLink(fs, l) then Destination(l, fs[l].text) else l
  }

  // Where n hops from a location lead.
  function After(fs: Files, l: Location, n: nat): Location {
    if n == 0 then l else Hop(fs, After(fs, l, n - 1))
  }

  function Links(fs: Files): set<Location> {
    set l | l in fs && fs[l].Link?
  }

  // The end of the chain, or None when it runs in a cycle.
  function Resolved(fs: Files, current: Location, seen: set<Location>): Option<Location>
    decreases |Links(fs) - seen|
  {
    if current in seen then None
    else if !IsLink(fs, current) then Some(current)
    else
      assert Links(fs) - (seen + {current}) == (Links(fs) - seen) - {current};
      assert current in Links(fs) - seen;
      Resolved(fs, Hop(fs, current), seen + {current})
  }

  function EndOf(fs: Files, start: Location): Option<Location> {
    Resolved(fs, start, {})
  }

  // The chain visits only links in its first n steps.
  ghost predicate LinksFor(fs: Files, start: Location, n: nat) {
    forall k :: 0 <= k < n ==> IsLink(fs, After(fs, start, k))
  }

  ghost predicate SeenIs(fs: Files, start: Location, n: nat, seen: set<Location>) {
    forall l :: l in seen <==> exists k: nat :: k < n && After(fs, start, k) == l
  }

  // What a resolution means.
  ghost predicate Resolves(fs: Files, start: Location, r: Option<Location>) {
    match r
    case Some(end) => !IsLink(fs, end) && exists n: nat :: LinksFor(fs, start, n) && After(fs, start, n) == end
    case None => exists m: nat, n: nat :: m < n && LinksFor(fs, start, n) && After(fs, start, m) == After(fs, start, n)
  }

  lemma {:induction false} SeenGrows(fs: Files, start: Location, n: nat, seen: set<Location>)
    requires SeenIs(fs, start, n, seen)
    ensures SeenIs(fs, start, n + 1, seen + {After(fs, start, n)})
  {
    hide After;
    forall l | l in seen ensures exists k: nat :: k < n + 1 && After(fs, start, k) == l {
      var k: nat :| k < n && After(fs, start, k) == l;
      assert k < n + 1;
    }
  }

  lemma OneMoreLink(fs: Files, start: Location, n: nat)
    requires LinksFor(fs, start, n) && IsLink(fs, After(fs, start, n))
    ensures LinksFor(fs, start, n + 1) && After(fs, start, n + 1) == Hop(fs, After(fs, start, n))
  {
  }

  lemma OneLess(fs: Files, seen: set<Location>, l: Location)
    requires IsLink(fs, l) && l !in seen
    ensures |Links(fs) - (seen + {l})| < |Links(fs) - seen|
  {
    assert Links(fs) - (seen + {l}) == (Links(fs) - seen) - {l};
    assert l in Links(fs) - seen;
  }

  lemma {:induction false} RevisitResolves(fs: Files, start: Location, n: nat, seen: set<Location>)
    requires LinksFor(fs, start, n) && SeenIs(fs, start, n, seen) && After(fs, start, n) in seen
    ensures Resolves(fs, start, None)
  {
    hide After;
    var m: nat :| m < n && After(fs, start, m) == After(fs, start, n);
  }

  lemma {:induction false} ResolvedFrom(fs: Files, start: Location, n: nat, seen: set<Location>)
    requires LinksFor(fs, start, n) && SeenIs(fs, start, n, seen)
    ensures Resolves(fs, start, Resolved(fs, After(fs, start, n), seen))
    decreases |Links(fs) - seen|
  {
    hide After, Hop, LinksFor, SeenIs, Links, IsLink;
    var current := After(fs, start, n);
    if current in seen {
      RevisitResolves(fs, start, n, seen);
    } else if IsLink(fs, current) {
      OneLess(fs, seen, current);
      SeenGrows(fs, start, n, seen);
      OneMoreLink(fs, start, n);
      ResolvedFrom(fs, start, n + 1, seen + {current});
    }
  }

  // A chain that revisits a location never ends.
  lemma {:induction false} Periodic(fs: Files, start: Location, m: nat, n: nat, k: nat)
    requires m < n && LinksFor(fs, start, n) && After(fs, start, m) == After(fs, start, n)
    ensures IsLink(fs, After(fs, start, k))
    decreases k
  {
    if k >= n {
      Periodic(fs, start, m, n, k - (n - m));
      Shifted(fs, start, m, n, k - n);
      assert m + (k - n) == k - (n - m);
    }
  }

  lemma {:induction false} Shifted(fs: Files, start: Location, m: nat, n: nat, d: nat)
    requires After(fs, start, m) == After(fs, start, n)
    ensures After(fs, start, m + d) == After(fs, start, n + d)
    decreases d
  {
    if d > 0 { Shifted(fs, start, m, n, d - 1); }
  }

  /** Resolution ends on every finite file system. It returns the first location of the chain that is not
      a link, and reports a cycle exactly when the chain revisits a location, which is exactly when it has
      no end. */
  lemma ResolutionIsExact(fs: Files, start: Location)
    ensures Resolves(fs, start, EndOf(fs, start))
    ensures EndOf(fs, start).None? <==> forall n: nat :: IsLink(fs, After(fs, start, n))
  {
    assert SeenIs(fs, start, 0, {}) && LinksFor(fs, start, 0);
    ResolvedFrom(fs, start, 0, {});
    if EndOf(fs, start).None? {
      var m: nat, n: nat :| m < n && LinksFor(fs, start, n) && After(fs, start, m) == After(fs, start, n);
      forall k ensures IsLink(fs, After(fs, start, k)) { Periodic(fs, start, m, n, k); }
    } else {
      var n: nat :| LinksFor(fs, start, n) && After(fs, start, n) == EndOf(fs, start).value;
      assert !IsLink(fs, After(fs, start, n));
    }
  }

  /** resolveSyncSymlinkTarget: a loop with the set of locations already visited. */
  method ResolveTarget(fs: Files, start: Location) returns (r: Option<Location>)
    ensures r == EndOf(fs, start)
  {
    var current := start;
    var seen: set<Location> := {};
    while true
      invariant Resolved(fs, current, seen) == EndOf(fs, start)
      decreases |Links(fs) - seen|
    {
      if current in seen { return None; }
      if !IsLink(fs, current) { return Some(current); }
      assert Links(fs) - (seen + {current}) == (Links(fs) - seen) - {current};
      assert current in Links(fs) - seen;
      seen := seen + {current};
      current := Hop(fs, current);
    }
  }

  // ----- snapshots -----

  datatype Body = Body(data: Bytes, mode: Mode)
  datatype Snapshot = Absent | File(body: Body) | LinkTo(text: LinkText, target: Location, contents: Option<Body>)

  // What can be read at the end of a chain: a regular file or nothing, but no directory.
  predicate Readable(fs: Files, l: Location) {
    !Blocked(fs, l) && (l in fs ==> fs[l].Regular?)
  }

  // None when the path cannot be looked up or is a directory, and when the chain of a managed link runs in a
  // cycle or ends so.
  function SnapshotOf(fs: Files, p: Location): Option<Snapshot> {
    if Blocked(fs, p) then None
    else if p !in fs then Some(Absent)
    else
      match fs[p]
      case Directory => None
      case Regular(data, mode) => Some(File(Body(data, mode)))
      case Link(text) =>
        match EndOf(fs, Destination(p, text))
        case None => None
        case Some(end) =>
          if !Readable(fs, end) then None
          else Some(LinkTo(text, end, if end in fs then Some(Body(fs[end].data, fs[end].mode)) else None))
  }

  type Snapshots = map<Location, Snapshot>

  ghost predicate TakenFrom(fs: Files, snaps: Snapshots) {
    forall p :: p in snaps ==> SnapshotOf(fs, p) == Some(snaps[p])
  }

  // Keeps the first of equal entries and drops those to be skipped.
  function Dedup<T(==)>(xs: seq<T>, skip: T -> bool): seq<T> {
    if xs == [] then []
    else
      var init, last := Dedup(xs[..|xs| - 1], skip), xs[|xs| - 1];
      if skip(last) || last in init then init else init + [last]
  }

  method DedupPaths<T(==)>(paths: seq<T>, skip: T -> bool) returns (out: seq<T>)
    ensures out == Dedup(paths, skip)
  {
    var seen: set<T> := {};
    out := [];
    for k := 0 to |paths|
      invariant out == Dedup(paths[..k], skip)
      invariant forall p :: p in seen <==> p in out
    {
      assert paths[..k + 1][..k] == paths[..k] && paths[..k + 1][k] == paths[k];
      if !skip(paths[k]) && paths[k] !in seen {
        seen := seen + {paths[k]};
        out := out + [paths[k]];
      }
    }
    assert paths[..|paths|] == paths;
  }

  // No path twice, and the paths are those of the list that are not skipped.
  lemma {:induction false} DedupIsExact<T(!new)>(xs: seq<T>, skip: T -> bool)
    ensures forall i, j :: 0 <= i < j < |Dedup(xs, skip)| ==> Dedup(xs, skip)[i] != Dedup(xs, skip)[j]
    ensures forall x :: x in Dedup(xs, skip) <==> x in xs && !skip(x)
  {
    if xs != [] {
      DedupIsExact(xs[..|xs| - 1], skip);
      assert xs == xs[..|xs| - 1] + [xs[|xs| - 1]];
    }
  }

  /** snapshotSyncFiles: one snapshot for each path, or nothing at all when some chain is a cycle. */
  method TakeSnapshots(fs: Files, paths: seq<Location>) returns (r: Option<Snapshots>)
    ensures r.Some? ==> TakenFrom(fs, r.value) && r.value.Keys == set p | p in paths
    ensures r.None? ==> exists p :: p in paths && SnapshotOf(fs, p).None?
  {
    var all := DedupPaths(paths, _ => false);
    DedupIsExact(paths, _ => false);
    var snaps: Snapshots := map[];
    for k := 0 to |all|
      invariant TakenFrom(fs, snaps) && snaps.Keys == set p | p in all[..k]
    {
      var s := SnapshotOf(fs, all[k]);
      if s.None? { assert all[k] in paths; return None; }
      snaps := snaps[all[k] := s.value];
      assert all[..k + 1] == all[..k] + [all[k]];
    }
    assert all[..|all|] == all;
    return Some(snaps);
  }

  // ----- restoring -----

  const MAX_COMPARED: nat := 16777216

  // The atomic writer compares with what is there first: it refuses a link, a directory and an oversized file.
  predicate Writable(fs: Files, t: Location) {
    t in fs ==> fs[t].Regular? && |fs[t].data| <= MAX_COMPARED
  }

  // The node at l keeps x from being a file: l is below x, so that x is a directory that is not empty, or x
  // would be below l, which is no directory.
  predicate InTheWay(fs: Files, l: Location, x: Location) {
    Blocks(fs, l, x) || (l in fs && Below(x, l))
  }

  predicate Clear(fs: Files, x: Location) {
    forall l :: l in fs ==> !InTheWay(fs, l, x)
  }

  function Above(t: Location): set<Location> {
    set k | 1 <= k < |t| :: t[..k]
  }

  // The directories on the way to t are made where they are missing.
  function WithDirectories(fs: Files, t: Location): Files {
    map l | l in fs.Keys + Above(t) :: if l in fs then fs[l] else Directory
  }

  // Write, then set the mode.
  function Written(fs: Files, t: Location, b: Body): Files {
    (if t in fs then fs else WithDirectories(fs, t))[t := Regular(b.data, b.mode)]
  }

  function WriteOne(fs: Files, t: Location, b: Body): (Files, bool) {
    if Clear(fs, t) && Writable(fs, t) then (Written(fs, t, b), true) else (fs, false)
  }

  // Removing what is not there succeeds; a directory that is not empty stays.
  function RemoveOne(fs: Files, l: Location): (Files, bool) {
    if Clear(fs, l) then (fs - {l}, true) else (fs, false)
  }

  function Parent(p: Location): Location {
    if p == [] then [] else p[..|p| - 1]
  }

  // A link can be made where one was just removed, or in a directory that exists.
  predicate HasPlace(fs: Files, p: Location) {
    p in fs || |p| <= 1 || (Parent(p) in fs && fs[Parent(p)].Directory?)
  }

  function Relink(fs: Files, p: Location, text: LinkText): (Files, bool) {
    if Clear(fs, p) && HasPlace(fs, p) then (fs[p := Link(text)], true) else (fs, false)
  }

  // One entry: the new files, and whether it succeeded.
  function RestoreOne(fs: Files, p: Location, s: Snapshot): (Files, bool) {
    match s
    case Absent => RemoveOne(fs, p)
    case File(b) => WriteOne(fs, p, b)
    case LinkTo(text, t, body) =>
      var first := if body.Some? then WriteOne(fs, t, body.value) else RemoveOne(fs, t);
      if first.1 then Relink(first.0, p, text) else first
  }

  predicate SameAt(a: Files, b: Files, l: Location) {
    (l in a <==> l in b) && (l in a ==> a[l] == b[l])
  }

  // The regular file an entry writes.
  function WritesTo(p: Location, s: Snapshot): Option<Location> {
    match s
    case File(_) => Some(p)
    case LinkTo(_, t, Some(_)) => Some(t)
    case _ => None
  }

  // The entry is about l: its own path, or the end of its chain.
  predicate Concerns(p: Location, s: Snapshot, l: Location) {
    p == l || (s.LinkTo? && s.target == l)
  }

  ghost predicate Touches(snaps: Snapshots, done: set<Location>, l: Location) {
    exists p :: p in done && p in snaps && Concerns(p, snaps[p], l)
  }

  // A directory on the way to a file that was written.
  ghost predicate Leads(snaps: Snapshots, done: set<Location>, l: Location) {
    exists p :: p in done && p in snaps && LeadsTo(p, snaps[p], l)
  }

  predicate LeadsTo(p: Location, s: Snapshot, l: Location) {
    WritesTo(p, s).Some? && l != [] && Below(l, WritesTo(p, s).value)
  }

  // Entry p succeeds once the entries in `done` are restored: nothing they have not touched is in the way of
  // what it concerns; the file it writes is writable, over its own bytes the second time; and for a link, its
  // directory exists, or was made on the way to a file.
  ghost predicate SucceedsAt(was: Files, now: Files, snaps: Snapshots, done: set<Location>, p: Location)
    requires p in snaps
  {
    && (forall l, x :: l in now && !Touches(snaps, done, l) && Concerns(p, snaps[p], x) ==> !InTheWay(now, l, x))
    && (WritesTo(p, snaps[p]).Some? ==>
          var t := WritesTo(p, snaps[p]).value; Writable(if Touches(snaps, done, t) then was else now, t))
    && (snaps[p].LinkTo? ==> HasPlace(now, p) || Leads(snaps, done + {p}, Parent(p)))
  }

  ghost predicate Succeeds(was: Files, now: Files, snaps: Snapshots, order: seq<Location>)
    requires forall p :: p in order ==> p in snaps
  {
    forall i :: 0 <= i < |order| ==> SucceedsAt(was, now, snaps, (set p | p in order[..i]), order[i])
  }

  // What is left at l once the entries in `done` are restored.
  ghost predicate PutBackAt(was: Files, now: Files, snaps: Snapshots, done: set<Location>, fs: Files, l: Location) {
    if Touches(snaps, done, l) then SameAt(fs, was, l)
    else if l !in now && Leads(snaps, done, l) then l in fs && fs[l].Directory?
    else SameAt(fs, now, l)
  }

  // The same without knowing which entries succeeded.
  ghost predicate OldOrNewAt(was: Files, now: Files, snaps: Snapshots, done: set<Location>, fs: Files, l: Location) {
    SameAt(fs, now, l) || (Touches(snaps, done, l) && SameAt(fs, was, l)) ||
    (l !in now && l in fs && fs[l].Directory? && Leads(snaps, done, l))
  }

  // ----- what the snapshots say of the file system they were taken from -----

  // A location some entry concerns was a regular file, a link or absent, and could be looked up.
  ghost predicate Leaf(was: Files, x: Location) {
    (x in was ==> !was[x].Directory?) && !Blocked(was, x)
  }

  lemma ConcernedIsLeaf(was: Files, snaps: Snapshots, p: Location, x: Location)
    requires TakenFrom(was, snaps) && p in snaps && Concerns(p, snaps[p], x)
    ensures Leaf(was, x)
  {
  }

  // Nothing that was there is in its way, and it leads to nothing.
  lemma LeavesAreApart(was: Files, x: Location)
    requires Tree(was) && Leaf(was, x)
    ensures forall l :: l in was ==> !Below(x, l) && !Blocks(was, l, x)
  {
    hide Below;
  }

  lemma TargetIsNotLink(was: Files, snaps: Snapshots, p: Location)
    requires TakenFrom(was, snaps) && p in snaps && snaps[p].LinkTo?
    ensures IsLink(was, p) && !IsLink(was, snaps[p].target)
    ensures snaps[p].target in was <==> snaps[p].contents.Some?
  {
    ResolutionIsExact(was, Destination(p, snaps[p].text));
  }

  // What one entry writes was a regular file.
  lemma WrittenIsRegular(was: Files, snaps: Snapshots, p: Location)
    requires TakenFrom(was, snaps) && p in snaps && WritesTo(p, snaps[p]).Some?
    ensures var t := WritesTo(p, snaps[p]).value; t in was && was[t].Regular? && Concerns(p, snaps[p], t)
  {
    hide Blocked, EndOf;
  }

  // A directory on the way to a written file was one, and concerns no entry.
  lemma LeadsAreDirectories(was: Files, snaps: Snapshots, done: set<Location>, l: Location)
    requires Tree(was) && TakenFrom(was, snaps) && Leads(snaps, done, l)
    ensures l in was && was[l].Directory? && forall any :: !Touches(snaps, any, l)
  {
    hide Below, SnapshotOf;
    var p :| p in done && p in snaps && LeadsTo(p, snaps[p], l);
    WrittenIsRegular(was, snaps, p);
    forall any | Touches(snaps, any, l) ensures false {
      var q :| q in any && q in snaps && Concerns(q, snaps[q], l);
      ConcernedIsLeaf(was, snaps, q, l);
    }
  }

  // A managed link is concerned by its own entry only.
  lemma LinkConcernsItself(was: Files, snaps: Snapshots, done: set<Location>, p: Location)
    requires TakenFrom(was, snaps) && p in snaps && snaps[p].LinkTo? && Touches(snaps, done, p)
    ensures p in done
  {
    hide SnapshotOf;
    TargetIsNotLink(was, snaps, p);
    var q :| q in done && q in snaps && Concerns(q, snaps[q], p);
    if q != p { TargetIsNotLink(was, snaps, q); }
  }

// ----- one entry -----

  lemma AboveIs(t: Location, l: Location)
    ensures l in Above(t) <==> l != [] && Below(l, t)
  {
    if l != [] && Below(l, t) { assert t[..|l|] == l; }
  }

  // What writing does at each location.
  lemma WriteEffect(fs: Files, t: Location, b: Body, l: Location)
    ensures var r := WriteOne(fs, t, b);
            && (r.1 && l == t ==> l in r.0 && r.0[l] == Regular(b.data, b.mode))
            && (l != t || !r.1 ==> SameAt(r.0, fs, l) || (l !in fs && l in r.0 && r.0[l].Directory? && l != [] && Below(l, t)))
            && (r.1 && t !in fs && l != [] && Below(l, t) ==> l in r.0)
  {
    hide Clear, Writable, Below;
    AboveIs(t, l);
  }

  // What an entry does at each location: nothing, or what it is for, or a directory on the way.
  lemma {:induction false} EntryEffect(was: Files, snaps: Snapshots, fs: Files, p: Location, l: Location)
    requires TakenFrom(was, snaps) && p in snaps
    ensures var s, r := snaps[p], RestoreOne(fs, p, snaps[p]);
            && (SameAt(r.0, fs, l) || (Concerns(p, s, l) && SameAt(r.0, was, l)) ||
                (l !in fs && l in r.0 && r.0[l].Directory? && LeadsTo(p, s, l)))
            && (r.1 && Concerns(p, s, l) ==> SameAt(r.0, was, l))
            && (r.1 && WritesTo(p, s).Some? && WritesTo(p, s).value !in fs && LeadsTo(p, s, l) ==> l in r.0)
  {
    hide Clear, Writable, Below, WriteOne, HasPlace, EndOf, Blocked;
    match snaps[p] {
      case Absent =>
      case File(b) => WriteEffect(fs, p, b, l);
      case LinkTo(text, t, contents) =>
        TargetIsNotLink(was, snaps, p);
        if contents.Some? {
          WrittenIsRegular(was, snaps, p);
          WriteEffect(fs, t, contents.value, l);
        }
    }
  }

  lemma TouchedMore(snaps: Snapshots, done: set<Location>, p: Location, l: Location)
    requires p in snaps
    ensures Touches(snaps, done + {p}, l) <==> Touches(snaps, done, l) || Concerns(p, snaps[p], l)
    ensures Leads(snaps, done + {p}, l) <==> Leads(snaps, done, l) || LeadsTo(p, snaps[p], l)
  {
    hide Concerns, LeadsTo;
    if Touches(snaps, done, l) {
      var q :| q in done && q in snaps && Concerns(q, snaps[q], l);
      assert q in done + {p};
    }
    if Leads(snaps, done, l) {
      var q :| q in done && q in snaps && LeadsTo(q, snaps[q], l);
      assert q in done + {p};
    }
  }

  // Whatever succeeded before and whatever this entry does, each location is old, new or a directory made.
  lemma {:induction false} OldOrNewStep(was: Files, now: Files, snaps: Snapshots, done: set<Location>, fs: Files,
                                        p: Location,
                                        l: Location)
    requires Tree(was) && TakenFrom(was, snaps) && p in snaps && OldOrNewAt(was, now, snaps, done, fs, l)
    ensures OldOrNewAt(was, now, snaps, done + {p}, RestoreOne(fs, p, snaps[p]).0, l)
  {
    hide RestoreOne, Concerns, LeadsTo, Tree, TakenFrom, Touches, Leads;
    EntryEffect(was, snaps, fs, p, l);
    TouchedMore(snaps, done, p, l);
    if Leads(snaps, done + {p}, l) { LeadsAreDirectories(was, snaps, done + {p}, l); }
  }

  // The file system while everything has succeeded.
  ghost predicate AllPutBack(was: Files, now: Files, snaps: Snapshots, done: set<Location>, fs: Files) {
    forall l :: PutBackAt(was, now, snaps, done, fs, l)
  }

  // What this entry needs is clear exactly if nothing untouched is in the way.
  lemma {:induction false} ClearIff(was: Files, now: Files, snaps: Snapshots, done: set<Location>, fs: Files,
                                    x: Location)
    requires Tree(was) && TakenFrom(was, snaps) && AllPutBack(was, now, snaps, done, fs) && Leaf(was, x)
    ensures Clear(fs, x) <==> forall l :: l in now && !Touches(snaps, done, l) ==> !InTheWay(now, l, x)
  {
    hide Tree, TakenFrom, Touches, Leads, Leaf, Below;
    LeavesAreApart(was, x);
    forall l | l in fs
      ensures InTheWay(fs, l, x) ==> l in now && !Touches(snaps, done, l) && InTheWay(now, l, x)
    {
      assert PutBackAt(was, now, snaps, done, fs, l);
      if Leads(snaps, done, l) { LeadsAreDirectories(was, snaps, done, l); }
    }
    forall l | l in now && !Touches(snaps, done, l) ensures l in fs && (InTheWay(fs, l, x) <==> InTheWay(now, l, x)) {
      assert PutBackAt(was, now, snaps, done, fs, l);
    }
  }

  lemma {:induction false} WritableIff(was: Files, now: Files, snaps: Snapshots, done: set<Location>, fs: Files,
                                       p: Location)
    requires Tree(was) && TakenFrom(was, snaps) && AllPutBack(was, now, snaps, done, fs)
    requires p in snaps && WritesTo(p, snaps[p]).Some?
    ensures var t := WritesTo(p, snaps[p]).value;
            Writable(fs, t) <==> Writable(if Touches(snaps, done, t) then was else now, t)
  {
    hide Tree, TakenFrom, Touches, Leads, WritesTo;
    var t := WritesTo(p, snaps[p]).value;
    WrittenIsRegular(was, snaps, p);
    assert PutBackAt(was, now, snaps, done, fs, t);
    if Leads(snaps, done, t) { LeadsAreDirectories(was, snaps, done, t); }
  }

  // The way to a file that is already there exists, or was made.
  lemma {:induction false} WayExists(was: Files, now: Files, snaps: Snapshots, done: set<Location>, fs: Files,
                                     p: Location,
                                     l: Location)
    requires Tree(was) && Tree(now) && TakenFrom(was, snaps) && AllPutBack(was, now, snaps, done, fs)
    requires p in snaps && LeadsTo(p, snaps[p], l) && WritesTo(p, snaps[p]).value in fs
    ensures l in now || Leads(snaps, done, l)
  {
    hide SnapshotOf, Below;
    var t := WritesTo(p, snaps[p]).value;
    WrittenIsRegular(was, snaps, p);
    assert PutBackAt(was, now, snaps, done, fs, t);
    if Touches(snaps, done, t) {
      var q :| q in done && q in snaps && Concerns(q, snaps[q], t);
      SameFile(was, snaps, q, t);
      assert LeadsTo(q, snaps[q], l);
    } else if Leads(snaps, done, t) {
      LeadsAreDirectories(was, snaps, done, t);
    }
  }

  // An entry that concerns a regular file writes it.
  lemma SameFile(was: Files, snaps: Snapshots, q: Location, t: Location)
    requires TakenFrom(was, snaps) && q in snaps && Concerns(q, snaps[q], t) && t in was && was[t].Regular?
    ensures WritesTo(q, snaps[q]) == Some(t)
  {
    hide EndOf, Blocked;
    if snaps[q].LinkTo? { TargetIsNotLink(was, snaps, q); }
  }

  // One more entry that succeeds.
  lemma {:induction false} PutBackStep(was: Files, now: Files, snaps: Snapshots, done: set<Location>, fs: Files,
                                       p: Location,
                                       l: Location)
    requires Tree(was) && Tree(now) && TakenFrom(was, snaps) && AllPutBack(was, now, snaps, done, fs) && p in snaps
    requires RestoreOne(fs, p, snaps[p]).1
    ensures PutBackAt(was, now, snaps, done + {p}, RestoreOne(fs, p, snaps[p]).0, l)
  {
    hide RestoreOne, Concerns, Tree, TakenFrom, Touches, Leads, Below;
    EntryEffect(was, snaps, fs, p, l);
    TouchedMore(snaps, done, p, l);
    assert PutBackAt(was, now, snaps, done, fs, l);
    if Leads(snaps, done + {p}, l) {
      LeadsAreDirectories(was, snaps, done + {p}, l);
      if LeadsTo(p, snaps[p], l) && WritesTo(p, snaps[p]).value in fs { WayExists(was, now, snaps, done, fs, p, l); }
    }
  }

  // ----- when one entry succeeds -----

  // A link and the end of its chain are apart.
  lemma LinkIsApart(was: Files, snaps: Snapshots, p: Location)
    requires Tree(was) && TakenFrom(was, snaps) && p in snaps && snaps[p].LinkTo?
    ensures var t := snaps[p].target; t != p && !Below(p, t) && !Below(t, p)
  {
    hide SnapshotOf, Below;
    TargetIsNotLink(was, snaps, p);
    ConcernedIsLeaf(was, snaps, p, p);
    ConcernedIsLeaf(was, snaps, p, snaps[p].target);
  }

  // The directory of a managed link was a directory, and no entry concerns it.
  lemma ParentIsDirectory(was: Files, snaps: Snapshots, p: Location)
    requires Tree(was) && TakenFrom(was, snaps) && p in snaps && snaps[p].LinkTo? && |p| > 1
    ensures Parent(p) != [] && Below(Parent(p), p) && Parent(p) in was && was[Parent(p)].Directory?
    ensures forall any :: !Touches(snaps, any, Parent(p))
  {
    hide SnapshotOf;
    TargetIsNotLink(was, snaps, p);
    forall any | Touches(snaps, any, Parent(p)) ensures false {
      var q :| q in any && q in snaps && Concerns(q, snaps[q], Parent(p));
      ConcernedIsLeaf(was, snaps, q, Parent(p));
    }
  }

  // Handling the end of its chain first changes nothing in the way of the link itself.
  lemma {:induction false} ClearAfterTarget(was: Files, snaps: Snapshots, fs: Files, mid: Files, p: Location)
    requires Tree(was) && TakenFrom(was, snaps) && p in snaps && snaps[p].LinkTo?
    requires forall l :: SameAt(mid, fs, l) || l == snaps[p].target ||
                         (l !in fs && l in mid && mid[l].Directory? && LeadsTo(p, snaps[p], l))
    ensures Clear(mid, p) <==> Clear(fs, p)
  {
    hide Tree, TakenFrom, Below;
    LinkIsApart(was, snaps, p);
    ConcernedIsLeaf(was, snaps, p, p);
    LeavesAreApart(was, p);
    forall l ensures (l in mid && InTheWay(mid, l, p)) <==> (l in fs && InTheWay(fs, l, p)) {
      if l != snaps[p].target && !SameAt(mid, fs, l) {
        assert Leads(snaps, {p}, l);
        LeadsAreDirectories(was, snaps, {p}, l);
      }
    }
  }

  lemma {:induction false} PlaceAfterTarget(was: Files, now: Files, snaps: Snapshots, done: set<Location>, fs: Files,
                                            mid: Files, p: Location)
    requires Tree(was) && Tree(now) && TakenFrom(was, snaps) && AllPutBack(was, now, snaps, done, fs)
    requires p in snaps && p !in done && snaps[p].LinkTo?
    requires forall l :: SameAt(mid, fs, l) || l == snaps[p].target ||
                         (l !in fs && l in mid && mid[l].Directory? && LeadsTo(p, snaps[p], l))
    requires forall l :: WritesTo(p, snaps[p]).Some? && snaps[p].target !in fs && LeadsTo(p, snaps[p], l) ==> l in mid
    requires Clear(fs, p)
    ensures HasPlace(mid, p) <==> HasPlace(now, p) || Leads(snaps, done + {p}, Parent(p))
  {
    hide Tree, TakenFrom, Touches, Leads, LeadsTo, Below, WritesTo;
    var q := Parent(p);
    LinkIsApart(was, snaps, p);
    SameLink(was, now, snaps, done, fs, mid, p);
    if |p| > 1 {
      ParentIsDirectory(was, snaps, p);
      TouchedMore(snaps, done, p, q);
      assert PutBackAt(was, now, snaps, done, fs, q) && !InTheWay(fs, q, p);
      if LeadsTo(p, snaps[p], q) {
        WritesTarget(p, snaps[p], q);
        if snaps[p].target in fs { WayExists(was, now, snaps, done, fs, p, q); }
      }
    }
  }

  lemma WritesTarget(p: Location, s: Snapshot, l: Location)
    requires s.LinkTo? && LeadsTo(p, s, l)
    ensures WritesTo(p, s) == Some(s.target)
  {
  }

  // The place of the link itself is as it is now.
  lemma {:induction false} SameLink(was: Files, now: Files, snaps: Snapshots, done: set<Location>, fs: Files,
                                    mid: Files,
                                    p: Location)
    requires Tree(was) && TakenFrom(was, snaps) && AllPutBack(was, now, snaps, done, fs)
    requires p in snaps && p !in done && snaps[p].LinkTo?
    requires forall l :: SameAt(mid, fs, l) || l == snaps[p].target ||
                         (l !in fs && l in mid && mid[l].Directory? && LeadsTo(p, snaps[p], l))
    ensures SameAt(mid, now, p)
  {
    hide Tree, TakenFrom, LeadsTo, Below;
    LinkIsApart(was, snaps, p);
    assert PutBackAt(was, now, snaps, done, fs, p);
    if Touches(snaps, done, p) { LinkConcernsItself(was, snaps, done, p); }
    if Leads(snaps, done, p) { LeadsAreDirectories(was, snaps, done, p); }
    assert Touches(snaps, {p}, p);
    if LeadsTo(p, snaps[p], p) {
      assert Leads(snaps, {p}, p);
      LeadsAreDirectories(was, snaps, {p}, p);
    }
  }

lemma {:induction false} SucceedsIff(was: Files, now: Files, snaps: Snapshots, done: set<Location>, fs: Files,
                                     p: Location)
    requires Tree(was) && Tree(now) && TakenFrom(was, snaps) && AllPutBack(was, now, snaps, done, fs)
    requires p in snaps && p !in done
    ensures RestoreOne(fs, p, snaps[p]).1 <==> SucceedsAt(was, now, snaps, done, p)
  {
    hide Tree, TakenFrom, AllPutBack, Touches, Leads, Clear, Writable, HasPlace;
    NeedsClearIff(was, now, snaps, done, fs, p);
    if WritesTo(p, snaps[p]).Some? { WritableIff(was, now, snaps, done, fs, p); }
    if snaps[p].LinkTo? {
      var s := snaps[p];
      var first := if s.contents.Some? then WriteOne(fs, s.target, s.contents.value) else RemoveOne(fs, s.target);
      if first.1 {
        AfterTarget(snaps, fs, p);
        ClearAfterTarget(was, snaps, fs, first.0, p);
        if Clear(fs, p) { PlaceAfterTarget(was, now, snaps, done, fs, first.0, p); }
      }
    }
  }

  // Everything the entry concerns is clear.
  lemma {:induction false} NeedsClearIff(was: Files, now: Files, snaps: Snapshots, done: set<Location>, fs: Files,
                                         p: Location)
    requires Tree(was) && TakenFrom(was, snaps) && AllPutBack(was, now, snaps, done, fs) && p in snaps
    ensures (forall l, x :: l in now && !Touches(snaps, done, l) && Concerns(p, snaps[p], x) ==> !InTheWay(now, l, x)) <==>
              Clear(fs, p) && (snaps[p].LinkTo? ==> Clear(fs, snaps[p].target))
  {
    hide Tree, TakenFrom, AllPutBack, Touches, Clear, InTheWay, Leaf;
    forall x | Concerns(p, snaps[p], x)
      ensures Clear(fs, x) <==> forall l :: l in now && !Touches(snaps, done, l) ==> !InTheWay(now, l, x)
    {
      ConcernedIsLeaf(was, snaps, p, x);
      ClearIff(was, now, snaps, done, fs, x);
    }
    assert Concerns(p, snaps[p], p);
    if snaps[p].LinkTo? { assert Concerns(p, snaps[p], snaps[p].target); }
  }

  // What handling the end of the chain does at each location.
  lemma {:induction false} AfterTarget(snaps: Snapshots, fs: Files, p: Location)
    requires p in snaps && snaps[p].LinkTo?
    ensures var s := snaps[p];
            var first := if s.contents.Some? then WriteOne(fs, s.target, s.contents.value) else RemoveOne(fs, s.target);
            && (forall l :: SameAt(first.0, fs, l) || l == s.target ||
                            (l !in fs && l in first.0 && first.0[l].Directory? && LeadsTo(p, s, l)))
            && (first.1 ==> forall l :: WritesTo(p, s).Some? && s.target !in fs && LeadsTo(p, s, l) ==> l in first.0)
  {
    hide Clear, Writable, Below, WriteOne;
    var s := snaps[p];
    if s.contents.Some? {
      forall l { WriteEffect(fs, s.target, s.contents.value, l); }
    }
  }

  // ----- all entries -----

  // `was` when the snapshots were taken, `now` when restoration began, `fs` after the entries in `done`.
  ghost predicate Progress(was: Files, now: Files, snaps: Snapshots, done: set<Location>, fs: Files, ok: bool) {
    && (ok ==> AllPutBack(was, now, snaps, done, fs))
    && forall l :: OldOrNewAt(was, now, snaps, done, fs, l)
  }

  // One more entry, whichever it is.
  lemma {:induction false} RestoreStep(was: Files, now: Files, snaps: Snapshots, done: set<Location>, fs: Files,
                                       ok: bool,
                                       p: Location)
    requires Tree(was) && Tree(now) && TakenFrom(was, snaps) && p in snaps && p !in done
    requires Progress(was, now, snaps, done, fs, ok)
    ensures var r := RestoreOne(fs, p, snaps[p]); Progress(was, now, snaps, done + {p}, r.0, ok && r.1)
    ensures ok ==> (RestoreOne(fs, p, snaps[p]).1 <==> SucceedsAt(was, now, snaps, done, p))
  {
    hide Tree, TakenFrom, RestoreOne, PutBackAt, OldOrNewAt, SucceedsAt;
    var r := RestoreOne(fs, p, snaps[p]);
    forall l ensures OldOrNewAt(was, now, snaps, done + {p}, r.0, l) { OldOrNewStep(was, now, snaps, done, fs, p, l); }
    if ok {
      SucceedsIff(was, now, snaps, done, fs, p);
      if r.1 {
        forall l ensures PutBackAt(was, now, snaps, done + {p}, r.0, l) { PutBackStep(was, now, snaps, done, fs, p, l); }
      }
    }
  }

  function RestoreAll(fs: Files, snaps: Snapshots, order: seq<Location>): (Files, bool)
    requires forall p :: p in order ==> p in snaps
    decreases |order|
  {
    if order == [] then (fs, true)
    else
      var p := order[|order| - 1];
      var before := RestoreAll(fs, snaps, order[..|order| - 1]);
      var r := RestoreOne(before.0, p, snaps[p]);
      (r.0, before.1 && r.1)
  }

  predicate Once<T(==)>(xs: seq<T>) {
    forall i, j :: 0 <= i < j < |xs| ==> xs[i] != xs[j]
  }

  lemma {:induction false} SucceedsOneMore(was: Files, now: Files, snaps: Snapshots, init: seq<Location>, p: Location)
    requires forall q :: q in init + [p] ==> q in snaps
    ensures forall q :: q in init || q == p ==> q in snaps
    ensures Succeeds(was, now, snaps, init + [p]) <==>
              Succeeds(was, now, snaps, init) && SucceedsAt(was, now, snaps, (set q | q in init), p)
  {
    hide SucceedsAt;
    assert forall q :: q in init || q == p ==> q in init + [p];
    var all := init + [p];
    assert all[|init|] == p && all[..|init|] == init;
    forall i | 0 <= i < |init| ensures all[i] == init[i] && all[..i] == init[..i] {
    }
  }

  lemma NothingDone(was: Files, now: Files, snaps: Snapshots)
    ensures Progress(was, now, snaps, {}, now, true)
  {
  }

  lemma {:induction false} RestoreProgress(was: Files, now: Files, snaps: Snapshots, order: seq<Location>)
    requires Tree(was) && Tree(now) && TakenFrom(was, snaps) && Once(order) && forall p :: p in order ==> p in snaps
    ensures var r := RestoreAll(now, snaps, order);
            Progress(was, now, snaps, (set p | p in order), r.0, r.1) && (r.1 <==> Succeeds(was, now, snaps, order))
    decreases |order|
  {
    hide Tree, TakenFrom, Progress, RestoreOne, Succeeds;
    if order == [] {
      NothingDone(was, now, snaps);
      assert (set p | p in order) == {};
      NoneSucceeds(was, now, snaps, order);
    } else {
      var init, p := order[..|order| - 1], order[|order| - 1];
      assert order == init + [p];
      RestoreProgress(was, now, snaps, init);
      var before := RestoreAll(now, snaps, init);
      var done := set q | q in init;
      assert (set p | p in order) == done + {p};
      assert p !in init;
      RestoreStep(was, now, snaps, done, before.0, before.1, p);
      SucceedsOneMore(was, now, snaps, init, p);
    }
  }

  lemma NoneSucceeds(was: Files, now: Files, snaps: Snapshots, order: seq<Location>)
    requires order == []
    ensures Succeeds(was, now, snaps, order)
  {
  }

  // Everything managed is as it was; the directories on the way are there; everything else is as it is now.
  ghost predicate PutBack(was: Files, now: Files, snaps: Snapshots, fs: Files) {
    forall l :: PutBackAt(was, now, snaps, snaps.Keys, fs, l)
  }

  ghost predicate OldOrNew(was: Files, now: Files, snaps: Snapshots, fs: Files) {
    forall l :: OldOrNewAt(was, now, snaps, snaps.Keys, fs, l)
  }

  ghost predicate Orders(order: seq<Location>, snaps: Snapshots) {
    Once(order) && forall p :: p in order <==> p in snaps
  }

  /** Restoration in a given order. Taken from one file system and replayed over any later one, whatever links
      the managed paths share: it succeeds exactly when each entry in turn does, and then every managed path
      and every resolved link target has its old value and mode, directories on the way to a written file
      exist, and no other location has changed. Even when it fails, every location is as it was, or as it is
      now, or such a directory. */
  lemma {:induction false} RestoreInOrder(was: Files, now: Files, snaps: Snapshots, order: seq<Location>)
    requires Tree(was) && Tree(now) && TakenFrom(was, snaps) && Orders(order, snaps)
    ensures var r := RestoreAll(now, snaps, order);
            && (r.1 <==> Succeeds(was, now, snaps, order))
            && (r.1 ==> PutBack(was, now, snaps, r.0))
            && OldOrNew(was, now, snaps, r.0)
  {
    hide Tree, TakenFrom, RestoreAll, Succeeds;
    assert (set p | p in order) == snaps.Keys;
    RestoreProgress(was, now, snaps, order);
  }

  // ----- any order -----

  // Two entries write the same file.
  predicate WriteTogether(snaps: Snapshots, p: Location, q: Location) {
    p in snaps && q in snaps && p != q && WritesTo(p, snaps[p]).Some? && WritesTo(p, snaps[p]) == WritesTo(q, snaps[q])
  }

  // Every entry would succeed if it came first, and a file written twice is not too large to be compared
  // with itself.
  ghost predicate SucceedsAnyhow(was: Files, now: Files, snaps: Snapshots) {
    && (forall p :: p in snaps ==> SucceedsAt(was, now, snaps, {}, p))
    && (forall p, q :: WriteTogether(snaps, p, q) ==> Writable(was, WritesTo(p, snaps[p]).value))
  }

  lemma TouchesGrows(snaps: Snapshots, small: set<Location>, big: set<Location>, l: Location)
    requires small <= big
    ensures Touches(snaps, small, l) ==> Touches(snaps, big, l)
    ensures Leads(snaps, small, l) ==> Leads(snaps, big, l)
  {
  }

  lemma {:induction false} FirstMeansAlways(was: Files, now: Files, snaps: Snapshots, done: set<Location>, p: Location)
    requires TakenFrom(was, snaps) && SucceedsAnyhow(was, now, snaps) && p in snaps && p !in done && done <= snaps.Keys
    ensures SucceedsAt(was, now, snaps, done, p)
  {
    hide TakenFrom, InTheWay, Concerns, LeadsTo, HasPlace, Writable;
    assert SucceedsAt(was, now, snaps, {}, p);
    TouchesGrows(snaps, {} + {p}, done + {p}, Parent(p));
    if WritesTo(p, snaps[p]).Some? {
      var t := WritesTo(p, snaps[p]).value;
      if Touches(snaps, done, t) {
        var q :| q in done && q in snaps && Concerns(q, snaps[q], t);
        WrittenIsRegular(was, snaps, p);
        SameFile(was, snaps, q, t);
        assert WriteTogether(snaps, p, q);
      }
    }
  }

  lemma {:induction false} Enumerate(left: set<Location>) returns (order: seq<Location>)
    ensures Once(order) && forall p :: p in order <==> p in left
    decreases left
  {
    if left == {} {
      order := [];
    } else {
      var p :| p in left;
      var rest := Enumerate(left - {p});
      order := [p] + rest;
    }
  }

  // The entries p and q, in this order, before all others.
  lemma StartingWith(snaps: Snapshots, p: Location, q: Location) returns (order: seq<Location>)
    requires p in snaps && q in snaps && p != q
    ensures Orders(order, snaps) && |order| >= 2 && order[0] == p && order[1] == q
  {
    var rest := Enumerate(snaps.Keys - {p, q});
    order := [p, q] + rest;
  }

  lemma StartingWithOne(snaps: Snapshots, p: Location) returns (order: seq<Location>)
    requires p in snaps
    ensures Orders(order, snaps) && |order| >= 1 && order[0] == p
  {
    var rest := Enumerate(snaps.Keys - {p});
    order := [p] + rest;
  }

  /** Restoration in any order: whatever order the map yields its entries in, all of them succeed, exactly when
      each would succeed as the first and no file written twice is too large. */
  lemma {:induction false} RestoreInAnyOrder(was: Files, now: Files, snaps: Snapshots)
    requires Tree(was) && Tree(now) && TakenFrom(was, snaps)
    ensures SucceedsAnyhow(was, now, snaps) <==>
              forall order :: Orders(order, snaps) ==>
                RestoreAll(now, snaps, order).1 && PutBack(was, now, snaps, RestoreAll(now, snaps, order).0)
  {
    hide Tree, TakenFrom, RestoreAll, PutBack, SucceedsAnyhow;
    if SucceedsAnyhow(was, now, snaps) {
      forall order | Orders(order, snaps)
        ensures RestoreAll(now, snaps, order).1 && PutBack(was, now, snaps, RestoreAll(now, snaps, order).0)
      {
        RestoreInOrder(was, now, snaps, order);
        AnyhowInOrder(was, now, snaps, order);
      }
    } else {
      var order := FailingOrder(was, now, snaps);
      RestoreInOrder(was, now, snaps, order);
    }
  }

  lemma {:induction false} AnyhowInOrder(was: Files, now: Files, snaps: Snapshots, order: seq<Location>)
    requires TakenFrom(was, snaps) && SucceedsAnyhow(was, now, snaps) && Orders(order, snaps)
    ensures Succeeds(was, now, snaps, order)
  {
    hide TakenFrom, SucceedsAnyhow, SucceedsAt;
    forall i | 0 <= i < |order| ensures SucceedsAt(was, now, snaps, (set p | p in order[..i]), order[i]) {
      FirstMeansAlways(was, now, snaps, (set p | p in order[..i]), order[i]);
    }
  }

  lemma {:induction false} FailingOrder(was: Files, now: Files, snaps: Snapshots) returns (order: seq<Location>)
    requires TakenFrom(was, snaps) && !SucceedsAnyhow(was, now, snaps)
    ensures Orders(order, snaps) && !Succeeds(was, now, snaps, order)
  {
    hide TakenFrom;
    if p :| p in snaps && !SucceedsAt(was, now, snaps, {}, p) {
      order := StartingWithOne(snaps, p);
        assert (set q | q in order[..0]) == {};
    } else {
      var p, q :| WriteTogether(snaps, p, q) && !Writable(was, WritesTo(p, snaps[p]).value);
      order := StartingWith(snaps, p, q);
        WrittenIsRegular(was, snaps, p);
      var done := set x | x in order[..1];
      assert order[..1] == [p] && p in done;
      assert Touches(snaps, done, WritesTo(q, snaps[q]).value);
      assert !SucceedsAt(was, now, snaps, done, q);
    }
  }

  // The failing input: a directory and a file in it have appeared at two managed paths that were absent. In
  // one order both go, in the other the directory stays.
  lemma OrderMatters(d: Location, f: Location, mode: Mode)
    requires d != [] && Below(d, f)
    ensures var snaps: Snapshots := map[d := Absent, f := Absent];
            var now: Files := map[d := Directory, f := Regular([], mode)];
            && TakenFrom(map[], snaps)
            && RestoreAll(now, snaps, [f, d]) == (map[], true)
            && RestoreAll(now, snaps, [d, f]) == (map[d := Directory], false)
  {
    var snaps: Snapshots := map[d := Absent, f := Absent];
    var now: Files := map[d := Directory, f := Regular([], mode)];
    assert [f, d][..1] == [f] && [d, f][..1] == [d] && [f][..0] == [] && [d][..0] == [];
    assert !InTheWay(now, d, f) && InTheWay(now, f, d);
    assert Clear(now, f) && !Clear(now, d);
    assert now - {f} == map[d := Directory];
    assert RestoreAll(now, snaps, [f]) == (map[d := Directory], true);
    assert RestoreAll(now, snaps, [d]) == (now, false);
  }

  // ----- what changed -----

  // Reading through links: the bytes, nothing at the end of the chain, or no way to read.
  datatype Read = Content(data: Bytes) | Nothing | Unreadable

  function ReadThrough(fs: Files, p: Location): Read {
    match EndOf(fs, p)
    case None => Unreadable
    case Some(end) =>
      if !Readable(fs, end) then Unreadable else if end in fs then Content(fs[end].data) else Nothing
  }

  function Remembered(s: Snapshot): Bytes {
    match s
    case File(b) => b.data
    case LinkTo(_, _, Some(b)) => b.data
    case _ => []
  }

  // The comparison, for one path that can be read.
  predicate ReportedChanged(fs: Files, before: Snapshot, p: Location) {
    match ReadThrough(fs, p)
    case Content(data) => before.Absent? || data != Remembered(before)
    case _ => !before.Absent?
  }

  predicate Dangling(s: Snapshot) {
    s.LinkTo? && s.contents.None?
  }

  lemma {:induction false} ReadThroughLink(fs: Files, p: Location)
    requires IsLink(fs, p)
    ensures EndOf(fs, p) == EndOf(fs, Hop(fs, p))
  {
    ResolutionIsExact(fs, p);
    ResolutionIsExact(fs, Hop(fs, p));
    if EndOf(fs, p).Some? {
      var n: nat :| LinksFor(fs, p, n) && After(fs, p, n) == EndOf(fs, p).value;
      assert n > 0;
      ShiftStart(fs, p, n - 1);
      assert !IsLink(fs, After(fs, Hop(fs, p), n - 1));
      var m: nat :| LinksFor(fs, Hop(fs, p), m) && After(fs, Hop(fs, p), m) == EndOf(fs, Hop(fs, p)).value;
      forall k | 0 <= k < n - 1 ensures IsLink(fs, After(fs, Hop(fs, p), k)) { ShiftStart(fs, p, k); }
      assert m == n - 1;
    } else {
      forall k ensures IsLink(fs, After(fs, Hop(fs, p), k)) { ShiftStart(fs, p, k); }
    }
  }

  lemma {:induction false} ShiftStart(fs: Files, p: Location, k: nat)
    ensures After(fs, p, k + 1) == After(fs, Hop(fs, p), k)
    decreases k
  {
    if k > 0 { ShiftStart(fs, p, k - 1); }
  }

  // What a snapshot remembers is what reading through the path gave.
  lemma SnapshotReads(was: Files, p: Location)
    requires SnapshotOf(was, p).Some?
    ensures ReadThrough(was, p) == if SnapshotOf(was, p).value.Absent? || Dangling(SnapshotOf(was, p).value) then Nothing
                                   else Content(Remembered(SnapshotOf(was, p).value))
  {
    if IsLink(was, p) { ReadThroughLink(was, p); }
  }

  /** What is reported. Except for a link that led nowhere, a path is reported exactly when what reading it
      gives has changed. A dangling link is reported even when nothing changed, and is not reported when an
      empty file has appeared at its end. */
  lemma ReportedIff(was: Files, now: Files, p: Location)
    requires SnapshotOf(was, p).Some?
    ensures var before := SnapshotOf(was, p).value;
            ReportedChanged(now, before, p) <==>
              if Dangling(before) then ReadThrough(now, p) != Content([])
              else match ReadThrough(now, p)
                   case Unreadable => !before.Absent?
                   case seen => seen != ReadThrough(was, p)
  {
    SnapshotReads(was, p);
  }

  // The failing inputs: a link that leads nowhere and has not changed is reported, and one at whose end an
  // empty file has appeared is not, although reading it now gives something.
  lemma DanglingLinksAreMisreported(text: LinkText, p: Location, mode: Mode)
    requires p != [] && !Below(p, Destination(p, text)) && !Below(Destination(p, text), p)
    requires Destination(p, text) != [] && Destination(p, text) != p
    ensures var was: Files := map[p := Link(text)];
            var now := was[Destination(p, text) := Regular([], mode)];
            && SnapshotOf(was, p).Some? && Dangling(SnapshotOf(was, p).value)
            && ReportedChanged(was, SnapshotOf(was, p).value, p)
            && ReadThrough(was, p) == Nothing && ReadThrough(now, p) == Content([])
            && !ReportedChanged(now, SnapshotOf(was, p).value, p)
  {
    var was: Files := map[p := Link(text)];
    var end := Destination(p, text);
    var now := was[end := Regular([], mode)];
    assert {} + {p} == {p};
    assert Resolved(was, end, {p}) == Some(end) && Resolved(now, end, {p}) == Some(end);
    assert EndOf(was, p) == Some(end) && EndOf(now, p) == Some(end);
    assert EndOf(was, end) == Some(end);
  }
}
