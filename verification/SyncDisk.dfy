/**
 The sync file code itself, on a file system it updates in place.
 */
module SyncDisk {
  import opened Wrappers
  import opened SyncFiles

  const PRIVATE_MODE: Mode := 384  // 0600

  lemma SameEverywhere(a: Files, b: Files)
    requires forall l :: SameAt(a, b, l)
    ensures a == b
  {
    assert forall l :: l in a.Keys <==> l in b.Keys by {
      forall l ensures l in a.Keys <==> l in b.Keys { assert SameAt(a, b, l); }
    }
    assert a.Keys == b.Keys;
    forall l | l in a ensures a[l] == b[l] { assert SameAt(a, b, l); }
  }

  // ----- a file system stays a tree -----

  lemma RemovalKeepsTree(fs: Files, l: Location)
    requires Tree(fs)
    ensures Tree(RemoveOne(fs, l).0)
  {
    hide Below;
    if Clear(fs, l) {
      forall k | k in fs ensures !Below(l, k) { assert !InTheWay(fs, k, l); }
    }
  }

  lemma BelowBelow(a: Location, l: Location, t: Location)
    requires Below(a, l) && Below(l, t)
    ensures Below(a, t)
  {
    assert l[..|a|] == t[..|a|];
  }

  lemma WritingKeepsTree(fs: Files, t: Location, b: Body)
    requires Tree(fs)
    ensures Tree(WriteOne(fs, t, b).0)
  {
    hide Below;
    var r := WriteOne(fs, t, b);
    if r.1 {
      forall l, a | l in r.0 && Below(a, l) ensures (a != [] ==> a in r.0) && (a in r.0 ==> r.0[a].Directory?) {
        AboveIs(t, l);
        AboveIs(t, a);
        if l in fs {
          if a == t { assert !InTheWay(fs, l, t); }
        } else {
          if l != t { BelowBelow(a, l, t); }
          if a in fs { assert !InTheWay(fs, a, t); }
          NotBelowItself(t, a);
        }
      }
    }
  }

  lemma NotBelowItself(t: Location, a: Location)
    ensures Below(a, t) ==> a != t
  {
  }

  // The directory of something removed stays.
  lemma ParentStays(fs: Files, p: Location)
    requires Tree(fs) && p in fs && |p| > 1
    ensures Parent(p) in fs - {p} && fs[Parent(p)].Directory?
  {
    assert Below(Parent(p), p);
  }

  lemma LinkKeepsTree(fs: Files, p: Location, text: LinkText)
    requires Tree(fs) && Relink(fs, p, text).1
    ensures Tree(Relink(fs, p, text).0)
  {
  }

  lemma ParentIsNotItself(p: Location)
    ensures |p| > 1 ==> Parent(p) != p
  {
  }

  lemma ProgressEnds(was: Files, now: Files, snaps: Snapshots, fs: Files, ok: bool)
    requires Progress(was, now, snaps, snaps.Keys, fs, ok)
    ensures (ok ==> PutBack(was, now, snaps, fs)) && OldOrNew(was, now, snaps, fs)
  {
    hide PutBackAt, OldOrNewAt;
  }

  class Disk {
    var files: Files

    constructor (files: Files)
      ensures this.files == files
    {
      this.files := files;
    }

    // The atomic writer: it compares first, does nothing when the bytes are already there, and otherwise
    // makes the directories on the way and replaces the file.
    method WriteAtomic(t: Location, data: Bytes, mode: Mode) returns (ok: bool)
      modifies this
      ensures ok == (Clear(old(files), t) && Writable(old(files), t))
      ensures ok ==> t in files && files[t].Regular? && files[t].data == data
      ensures ok ==> forall l :: l != t ==> SameAt(files, Written(old(files), t, Body(data, mode)), l)
      ensures !ok ==> files == old(files)
    {
      if !Clear(files, t) || (t in files && (!files[t].Regular? || |files[t].data| > MAX_COMPARED)) { return false; }
      if t !in files {
        files := WithDirectories(files, t)[t := Regular(data, mode)];
      } else if files[t].data != data {
        files := files[t := Regular(data, mode)];
      }
      return true;
    }

    method Chmod(t: Location, mode: Mode)
      requires t in files && files[t].Regular?
      modifies this
      ensures files == old(files)[t := Regular(old(files)[t].data, mode)]
    {
      files := files[t := Regular(files[t].data, mode)];
    }

    // Removing what is not there succeeds; a directory that is not empty stays.
    method Remove(l: Location) returns (ok: bool)
      modifies this
      ensures (files, ok) == RemoveOne(old(files), l)
    {
      ok := Clear(files, l);
      if ok { files := files - {l}; }
    }

    // A link needs a directory to be in, and nothing in its place.
    method Symlink(p: Location, text: LinkText) returns (ok: bool)
      modifies this
      ensures ok == (p !in old(files) && (|p| <= 1 || (Parent(p) in old(files) && old(files)[Parent(p)].Directory?)))
      ensures files == if ok then old(files)[p := Link(text)] else old(files)
    {
      ok := p !in files && (|p| <= 1 || (Parent(p) in files && files[Parent(p)].Directory?));
      if ok { files := files[p := Link(text)]; }
    }

    method WriteBody(t: Location, b: Body) returns (ok: bool)
      modifies this
      ensures (files, ok) == WriteOne(old(files), t, b)
    {
      hide Clear, Writable, WithDirectories;
      ghost var first := Body(b.data, if b.mode == 0 then PRIVATE_MODE else b.mode);
      ok := WriteAtomic(t, b.data, if b.mode == 0 then PRIVATE_MODE else b.mode);
      if !ok { return; }
      ghost var mid := files;
      Chmod(t, b.mode);
      forall l ensures SameAt(files, Written(old(files), t, b), l) {
        if l != t { assert SameAt(mid, Written(old(files), t, first), l); }
      }
      SameEverywhere(files, Written(old(files), t, b));
    }

    // Replace whatever is at p by the link.
    method RemakeLink(p: Location, text: LinkText) returns (ok: bool)
      requires Tree(files)
      modifies this
      ensures Tree(files) && (files, ok) == Relink(old(files), p, text)
    {
      hide Tree, Clear, Below;
      ok := Remove(p);
      if !ok { return; }
      RemovalKeepsTree(old(files), p);
      if p in old(files) && |p| > 1 { ParentStays(old(files), p); }
      ParentIsNotItself(p);
      ok := Symlink(p, text);
      assert (old(files) - {p})[p := Link(text)] == old(files)[p := Link(text)];
      if ok { LinkKeepsTree(old(files), p, text); }
      else { assert files == old(files); }
    }

    method RestoreEntry(p: Location, s: Snapshot) returns (ok: bool)
      requires Tree(files)
      modifies this
      ensures Tree(files) && (files, ok) == RestoreOne(old(files), p, s)
    {
      hide Tree, Clear, WriteOne, RemoveOne, Relink;
      match s {
        case Absent =>
          ok := Remove(p);
          RemovalKeepsTree(old(files), p);
        case File(b) =>
          ok := WriteBody(p, b);
          WritingKeepsTree(old(files), p, b);
        case LinkTo(text, t, contents) =>
          if contents.Some? {
            ok := WriteBody(t, contents.value);
            WritingKeepsTree(old(files), t, contents.value);
          } else {
            ok := Remove(t);
            RemovalKeepsTree(old(files), t);
          }
          if ok { ok := RemakeLink(p, text); }
      }
    }

    /** restoreSyncFiles: the entries in whatever order the map yields them, going on after an error. */
    method Restore(snaps: Snapshots, ghost was: Files) returns (ok: bool, ghost order: seq<Location>)
      requires Tree(was) && Tree(files) && TakenFrom(was, snaps)
      modifies this
      ensures Orders(order, snaps) && (ok <==> Succeeds(was, old(files), snaps, order))
      ensures ok ==> PutBack(was, old(files), snaps, files)
      ensures OldOrNew(was, old(files), snaps, files)
      ensures SucceedsAnyhow(was, old(files), snaps) ==> ok
    {
      hide Tree, TakenFrom, Progress, Succeeds, SucceedsAt, SucceedsAnyhow, RestoreOne;
      ok, order := true, [];
      NoneSucceeds(was, files, snaps, order);
      assert (set p | p in order) == {};
      var left := snaps.Keys;
      NothingDone(was, files, snaps);
      while left != {}
        invariant left <= snaps.Keys && Tree(files)
        invariant Once(order) && forall p :: p in order <==> p in snaps && p !in left
        invariant Progress(was, old(files), snaps, (set p | p in order), files, ok)
        invariant ok <==> Succeeds(was, old(files), snaps, order)
        decreases left
      {
        var p :| p in left;
        left := left - {p};
        ghost var before := files;
        ghost var done := set q | q in order;
        var restored := RestoreEntry(p, snaps[p]);
        RestoreStep(was, old(files), snaps, done, before, ok, p);
        SucceedsOneMore(was, old(files), snaps, order, p);
        assert (set q | q in order + [p]) == done + {p};
        order := order + [p];
        ok := ok && restored;
      }
      assert (set p | p in order) == snaps.Keys;
      ProgressEnds(was, old(files), snaps, files, ok);
      if SucceedsAnyhow(was, old(files), snaps) { AnyhowInOrder(was, old(files), snaps, order); }
    }

    /** changedSyncFiles: the candidates whose content is reported as changed, first occurrence first; none
        at all when some candidate cannot be read. A path never snapshotted counts as absent before. */
    method Changed(candidates: seq<Location>, before: Snapshots) returns (r: Option<seq<Location>>)
      ensures r.Some? ==> forall p :: p in r.value <==>
                p in candidates && ReportedChanged(files, if p in before then before[p] else Absent, p)
      ensures r.Some? ==> Once(r.value)
      ensures r.None? <==> exists p :: p in candidates && ReadThrough(files, p).Unreadable?
    {
      var all := DedupPaths(candidates, _ => false);
      DedupIsExact(candidates, _ => false);
      var changed: seq<Location> := [];
      for k := 0 to |all|
        invariant forall p :: p in changed <==>
                    p in all[..k] && ReportedChanged(files, if p in before then before[p] else Absent, p)
        invariant Once(changed)
        invariant forall p :: p in all[..k] ==> !ReadThrough(files, p).Unreadable?
      {
        var p := all[k];
        assert p !in all[..k];
        assert all[..k + 1] == all[..k] + [p];
        var previous := if p in before then before[p] else Absent;
        match ReadThrough(files, p) {
          case Unreadable =>
            assert p in candidates;
            return None;
          case Nothing =>
            if !previous.Absent? { changed := changed + [p]; }
          case Content(data) =>
            if previous.Absent? || data != Remembered(previous) { changed := changed + [p]; }
        }
      }
      assert all[..|all|] == all;
      return Some(changed);
    }
  }
}
