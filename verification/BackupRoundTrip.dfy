/**
 What a backup is worth: the round trip, restoring again after a stop, and what cannot be restored.
 */
module BackupRoundTrip {
  import opened Wrappers
  import opened BackupFiles

  predicate SameAt(a: Files, b: Files, l: Path) {
    (l in a <==> l in b) && (l in a ==> a[l] == b[l])
  }

  // What a backup of `was` puts on record: each listed path that leads to a regular file, as that file. A
  // listed directory, a socket or a link that leads to none is recorded as absent.
  function Saved(was: Files, paths: seq<Path>): Files {
    map p | p in paths && Backed(was, p) :: FileAt(was, p)
  }

  predicate RegularFiles(saved: Files) {
    forall p :: p in saved ==> saved[p].Regular?
  }

  // What a restored path holds: the saved bytes, and mode unless the bytes were there already.
  function NodeBack(saved: Files, now: Files, p: Path): Node
    requires p in saved && saved[p].Regular?
  {
    if p in now && now[p].Regular? && now[p].data == saved[p].data then now[p] else Rewritten(saved[p].data, saved[p].mode)
  }

  // `now`, with the given paths put back as they are on record.
  function PutBack(saved: Files, now: Files, paths: seq<Path>): Files
    requires RegularFiles(saved)
  {
    map l | l in now.Keys + saved.Keys && (if l in paths then l in saved else l in now) ::
      if l in paths then NodeBack(saved, now, l) else now[l]
  }

  // Entry p can be restored once the paths in `done` are: it is below home; neither a node of `now` nor one
  // put back before is in the way; a file to be written is writable, over its own bytes the second time; and
  // a link to be removed does not lead out of home.
  predicate AcceptsAt(saved: Files, now: Files, done: seq<Path>, p: Path, home: Path) {
    && UnderHome(home, p)
    && (forall l :: l in now && l !in done ==> !InTheWay(now, l, p))
    && (forall l :: l in saved && l in done ==> !InTheWay(saved, l, p))
    && (p in saved ==> if p in done then Writable(saved, p) else Writable(now, p))
    && (p !in saved && p !in done && p in now && now[p].Link? ==>
          var end := now[p].end;
          UnderHome(home, end) || (if end in done then end !in saved else end !in now))
  }

  predicate Accepts(saved: Files, now: Files, paths: seq<Path>, home: Path) {
    forall i :: 0 <= i < |paths| ==> AcceptsAt(saved, now, paths[..i], paths[i], home)
  }

  lemma {:induction false} AcceptsOneMore(saved: Files, now: Files, init: seq<Path>, p: Path, home: Path)
    ensures Accepts(saved, now, init + [p], home) <==> Accepts(saved, now, init, home) && AcceptsAt(saved, now, init, p, home)
  {
    hide AcceptsAt;
    var all := init + [p];
    forall i | 0 <= i < |init| ensures all[i] == init[i] && all[..i] == init[..i] {
    }
    assert all[|init|] == p && all[..|init|] == init;
  }

  lemma ClearIff(saved: Files, now: Files, done: seq<Path>, p: Path)
    requires RegularFiles(saved)
    ensures Clear(PutBack(saved, now, done), p) <==>
              (forall l :: l in now && l !in done ==> !InTheWay(now, l, p)) &&
              (forall l :: l in saved && l in done ==> !InTheWay(saved, l, p))
  {
    hide Below;
    var fs := PutBack(saved, now, done);
    forall l | l in saved && l in done ensures l in fs && (InTheWay(fs, l, p) <==> InTheWay(saved, l, p)) {
    }
    forall l | l in now && l !in done ensures l in fs && (InTheWay(fs, l, p) <==> InTheWay(now, l, p)) {
    }
  }

  lemma StaysHomeIff(saved: Files, now: Files, done: seq<Path>, p: Path, home: Path)
    requires RegularFiles(saved)
    ensures StaysHome(PutBack(saved, now, done), home, p) <==>
              UnderHome(home, p) &&
              (p !in done && p in now && now[p].Link? ==>
                 var end := now[p].end;
                 UnderHome(home, end) || (if end in done then end !in saved else end !in now))
  {
    hide UnderHome;
  }

  lemma OneMoreBack(saved: Files, now: Files, done: seq<Path>, p: Path)
    requires RegularFiles(saved)
    ensures var fs := PutBack(saved, now, done);
            PutBack(saved, now, done + [p]) ==
              if p in saved then Written(fs, p, saved[p].data, saved[p].mode) else fs - {p}
  {
  }

  // One entry, restored over what the entries before it left.
  lemma {:induction false} RestoreStep(saved: Files, now: Files, done: seq<Path>, p: Path, files: map<string, Bytes>,
                                       home: Path)
    requires RegularFiles(saved)
    requires p in saved ==> ArchiveName(p) in files && files[ArchiveName(p)] == saved[p].data
    ensures RestoreEntry(PutBack(saved, now, done), EntryOf(saved, p), files, home) ==
              if AcceptsAt(saved, now, done, p, home) then Some(PutBack(saved, now, done + [p])) else None
  {
    hide Clear, InTheWay, UnderHome, ArchiveName;
    ClearIff(saved, now, done, p);
    StaysHomeIff(saved, now, done, p, home);
    OneMoreBack(saved, now, done, p);
  }

  lemma {:induction false} RestoresExactly(saved: Files, now: Files, paths: seq<Path>, files: map<string, Bytes>,
                                           home: Path)
    requires RegularFiles(saved)
    requires forall p :: p in paths && p in saved ==> ArchiveName(p) in files && files[ArchiveName(p)] == saved[p].data
    ensures RestoreEntries(now, Entries(saved, paths), files, home) ==
              if Accepts(saved, now, paths, home) then Some(PutBack(saved, now, paths)) else None
    decreases |paths|
  {
    hide RestoreEntry, EntryOf, AcceptsAt, ArchiveName;
    if paths == [] {
      assert PutBack(saved, now, []) == now;
    } else {
      var init, p := paths[..|paths| - 1], paths[|paths| - 1];
      assert paths == init + [p];
      RestoresExactly(saved, now, init, files, home);
      var es := Entries(saved, paths);
      assert es == Entries(saved, init) + [EntryOf(saved, p)];
      assert es[..|es| - 1] == Entries(saved, init);
      RestoreStep(saved, now, init, p, files, home);
      AcceptsOneMore(saved, now, init, p, home);
    }
  }

  // What the archive holds, when every path is below home.
  lemma {:induction false} ContentsHold(saved: Files, paths: seq<Path>, home: Path)
    requires RegularFiles(saved) && forall p :: p in paths ==> UnderHome(home, p)
    ensures forall p :: p in paths && p in saved ==>
              ArchiveName(p) in Contents(Created(saved, paths)) &&
              Contents(Created(saved, paths))[ArchiveName(p)] == saved[p].data
  {
    forall p | p in paths && p in saved
      ensures ArchiveName(p) in Contents(Created(saved, paths)) &&
              Contents(Created(saved, paths))[ArchiveName(p)] == saved[p].data
    {
      UnpackedHolds(saved, paths, p);
    }
  }

  // A path that is not below home stops the restore, whatever the archive holds.
  lemma {:induction false} OutsideHomeStops(saved: Files, now: Files, paths: seq<Path>, files: map<string, Bytes>,
                                            home: Path)
    requires exists p :: p in paths && !UnderHome(home, p)
    ensures RestoreEntries(now, Entries(saved, paths), files, home).None?
    decreases |paths|
  {
    hide UnderHome, ArchiveName;
    var init, last := paths[..|paths| - 1], paths[|paths| - 1];
    var es := Entries(saved, paths);
    assert es == Entries(saved, init) + [EntryOf(saved, last)];
    assert es[..|es| - 1] == Entries(saved, init);
    if UnderHome(home, last) {
      var p :| p in paths && !UnderHome(home, p);
      assert p in init;
      OutsideHomeStops(saved, now, init, files, home);
    }
  }

  lemma {:induction false} SavedIsRestored(saved: Files, now: Files, paths: seq<Path>, home: Path)
    requires RegularFiles(saved)
    ensures Restored(now, Created(saved, paths), home) ==
              if Accepts(saved, now, paths, home) then Some(PutBack(saved, now, paths)) else None
  {
    hide PutBack, UnderHome, InTheWay, ArchiveName;
    if forall p :: p in paths ==> UnderHome(home, p) {
      ContentsHold(saved, paths, home);
      hide Accepts, RestoreEntries;
      RestoresExactly(saved, now, paths, Contents(Created(saved, paths)), home);
    } else {
      OutsideHomeStops(saved, now, paths, Contents(Created(saved, paths)), home);
      var i :| 0 <= i < |paths| && !UnderHome(home, paths[i]);
      assert !AcceptsAt(saved, now, paths[..i], paths[i], home);
    }
  }

  // A backup depends on what it puts on record and on nothing else.
  lemma {:induction false} SavedIsEnough(was: Files, paths: seq<Path>, all: seq<Path>)
    requires forall p :: p in paths ==> p in all
    ensures Entries(was, paths) == Entries(Saved(was, all), paths) && Members(was, paths) == Members(Saved(was, all), paths)
    decreases |paths|
  {
    if paths != [] {
      var p := paths[|paths| - 1];
      SavedIsEnough(was, paths[..|paths| - 1], all);
      assert Backed(was, p) <==> Backed(Saved(was, all), p);
    }
  }

  lemma {:induction false} RestoredIs(was: Files, now: Files, paths: seq<Path>, home: Path)
    ensures RegularFiles(Saved(was, paths)) && Created(was, paths) == Created(Saved(was, paths), paths)
    ensures Restored(now, Created(was, paths), home) ==
              if Accepts(Saved(was, paths), now, paths, home) then Some(PutBack(Saved(was, paths), now, paths)) else None
  {
    SavedIsEnough(was, paths, paths);
    hide Accepts, Restored, PutBack;
    SavedIsRestored(Saved(was, paths), now, paths, home);
  }

  // The bytes, or absence, on record for l; the mode is set only when the bytes had to be written.
  predicate BytesAt(fs: Files, saved: Files, now: Files, l: Path) {
    if l !in saved then l !in fs
    else saved[l].Regular? && l in fs && fs[l].Regular? && fs[l].data == saved[l].data &&
         (fs[l] == Rewritten(saved[l].data, saved[l].mode) || SameAt(fs, now, l))
  }

  /** Backup round trip, for any paths and any two file systems. A restore succeeds exactly when each entry in
      turn is accepted; then every listed path that led to a regular file is a regular file with its bytes,
      every other listed path is gone, and no other path has changed. This covers a backup of no files at
      all, which has no archive and only removes. */
  lemma {:induction false} RoundTrip(was: Files, now: Files, paths: seq<Path>, home: Path)
    ensures var r, saved := Restored(now, Created(was, paths), home), Saved(was, paths);
            && (r.Some? <==> Accepts(saved, now, paths, home))
            && (r.Some? ==> forall l :: if l in paths then BytesAt(r.value, saved, now, l) else SameAt(r.value, now, l))
  {
    RestoredIs(was, now, paths, home);
    hide Accepts, Restored, Saved;
  }

  // The first entries are those of the first paths.
  lemma {:induction false} EntriesPrefix(fs: Files, paths: seq<Path>, k: nat)
    requires k <= |paths|
    ensures |Entries(fs, paths)| == |paths| && Entries(fs, paths)[..k] == Entries(fs, paths[..k])
    decreases |paths|
  {
    if paths == [] {
    } else if k == |paths| {
      EntriesPrefix(fs, paths[..k - 1], k - 1);
      assert paths[..k] == paths;
    } else {
      EntriesPrefix(fs, paths[..|paths| - 1], k);
      assert paths[..|paths| - 1][..k] == paths[..k];
    }
  }

  // ----- stopping and starting again -----

  // Putting back more over what some of it left is putting it all back at once.
  lemma PutBackOverPart(saved: Files, now: Files, part: seq<Path>, all: seq<Path>)
    requires RegularFiles(saved) && forall p :: p in part ==> p in all
    ensures PutBack(saved, PutBack(saved, now, part), all) == PutBack(saved, now, all)
  {
  }

  // Entry i can be repeated after k entries: its file is not too large to be compared with itself, and no
  // file put back is in the way.
  predicate RepeatableAt(saved: Files, paths: seq<Path>, k: nat, i: nat)
    requires i < k <= |paths|
  {
    && (paths[i] in saved && saved[paths[i]].Regular? ==> |saved[paths[i]].data| <= MAX_COMPARED)
    && forall j :: 0 <= j < k && paths[j] in saved ==> !InTheWay(saved, paths[j], paths[i])
  }

  // The i-th entry of the second run, after a first run that did k.
  lemma {:induction false} AcceptedAgainIff(saved: Files, now: Files, paths: seq<Path>, home: Path, k: nat, i: nat)
    requires RegularFiles(saved) && k <= |paths| && i < |paths|
    requires AcceptsAt(saved, now, paths[..i], paths[i], home)
    ensures AcceptsAt(saved, PutBack(saved, now, paths[..k]), paths[..i], paths[i], home) <==>
              (i < k ==> RepeatableAt(saved, paths, k, i))
  {
    hide InTheWay, UnderHome;
    var part, p := PutBack(saved, now, paths[..k]), paths[i];
    assert i < k ==> paths[..k][i] == p;
    assert i >= k ==> paths[..i][..k] == paths[..k];
    forall l | l in part ensures InTheWay(part, l, p) <==> InTheWay(if l in paths[..k] then saved else now, l, p) {
      SameInTheWay(if l in paths[..k] then saved else now, part, l, p);
    }
    forall j | 0 <= j < k ensures paths[j] in paths[..k] { assert paths[..k][j] == paths[j]; }
  }

  lemma SameInTheWay(a: Files, b: Files, l: Path, p: Path)
    requires l in a && l in b && (a[l].Directory? <==> b[l].Directory?)
    ensures InTheWay(a, l, p) <==> InTheWay(b, l, p)
  {
  }

  /** A restore that stopped after k entries and is run again. It succeeds exactly when each of the k entries
      can be repeated, and then the result is, modes included, that of a restore that never stopped. */
  lemma {:induction false} RestartReachesSame(was: Files, now: Files, paths: seq<Path>, home: Path, k: nat)
    requires k <= |paths| && Restored(now, Created(was, paths), home).Some?
    ensures k <= |Created(was, paths).entries|
    ensures var b := Created(was, paths);
            var part := RestoreEntries(now, b.entries[..k], Contents(b), home);
            && part.Some?
            && (Restored(part.value, b, home).Some? <==>
                  forall i :: 0 <= i < k ==> RepeatableAt(Saved(was, paths), paths, k, i))
            && (Restored(part.value, b, home).Some? ==> Restored(part.value, b, home) == Restored(now, b, home))
  {
    hide AcceptsAt, InTheWay, RestoreEntries, Saved, Created, Contents, RepeatableAt, UnderHome;
    var saved, b := Saved(was, paths), Created(was, paths);
    RestoredIs(was, now, paths, home);
    FirstEntriesRestored(was, now, paths, home, k);
    forall i | 0 <= i < k ensures paths[..k][i] == paths[i] && paths[..k][..i] == paths[..i] {
    }
    var part := PutBack(saved, now, paths[..k]);
    RestoredIs(was, part, paths, home);
    PutBackOverPart(saved, now, paths[..k], paths);
    forall i | 0 <= i < |paths|
      ensures AcceptsAt(saved, part, paths[..i], paths[i], home) <==> (i < k ==> RepeatableAt(saved, paths, k, i))
    {
      AcceptedAgainIff(saved, now, paths, home, k, i);
    }
  }

  // What the first k entries of a restore that succeeds leave.
  lemma {:induction false} FirstEntriesRestored(was: Files, now: Files, paths: seq<Path>, home: Path, k: nat)
    requires k <= |paths| && Accepts(Saved(was, paths), now, paths, home)
    ensures k <= |Created(was, paths).entries| && RegularFiles(Saved(was, paths))
    ensures RestoreEntries(now, Created(was, paths).entries[..k], Contents(Created(was, paths)), home) ==
              Some(PutBack(Saved(was, paths), now, paths[..k]))
  {
    hide InTheWay, RestoreEntries, Contents, UnderHome, ArchiveName, PutBack;
    var saved := Saved(was, paths);
    RestoredIs(was, now, paths, home);
    forall p | p in paths ensures UnderHome(home, p) {
      var i :| 0 <= i < |paths| && paths[i] == p;
      assert AcceptsAt(saved, now, paths[..i], paths[i], home);
    }
    ContentsHold(saved, paths, home);
    EntriesPrefix(saved, paths, k);
    forall p | p in paths[..k] ensures p in paths {
    }
    RestoresExactly(saved, now, paths[..k], Contents(Created(saved, paths)), home);
    assert Accepts(saved, now, paths[..k], home) by {
      forall i | 0 <= i < k ensures AcceptsAt(saved, now, paths[..k][..i], paths[..k][i], home) {
        assert paths[..k][i] == paths[i] && paths[..k][..i] == paths[..i];
      }
    }
  }

  // ----- one path -----

  // A single file, wherever its bytes came from.
  lemma {:induction false} OneFileIsRestoredIff(was: Files, now: Files, p: Path, home: Path)
    requires Backed(was, p)
    ensures var r := Restored(now, Created(was, [p]), home);
            && (r.Some? <==> UnderHome(home, p) && Clear(now, p) && Writable(now, p))
            && (r.Some? ==> p in r.value && r.value[p].Regular? && r.value[p].data == FileAt(was, p).data)
  {
    hide InTheWay, UnderHome, Restored;
    RestoredIs(was, now, [p], home);
    assert [p][0] == p && [p][..0] == [] && p in [p];
    assert Accepts(Saved(was, [p]), now, [p], home) <==> AcceptsAt(Saved(was, [p]), now, [], p, home);
  }

  /** A link to a regular file is backed up as that file. As long as it is a link it cannot be restored, alone
      or among others; once it is gone, it can, and becomes a regular file with those bytes. */
  lemma {:induction false} LinksAreRestoredOnceGone(was: Files, now: Files, paths: seq<Path>, i: nat, home: Path)
    requires i < |paths| && Backed(was, paths[i]) && was[paths[i]].Link?
    ensures paths[i] in now && now[paths[i]].Link? ==> Restored(now, Created(was, paths), home).None?
    ensures paths[i] !in now && Clear(now, paths[i]) && UnderHome(home, paths[i]) ==>
              var r := Restored(now, Created(was, [paths[i]]), home);
              r.Some? && r.value[paths[i]] == Rewritten(FileAt(was, paths[i]).data, FileAt(was, paths[i]).mode)
  {
    hide InTheWay, UnderHome, Restored, Created, Clear;
    var p := paths[i];
    if p in now && now[p].Link? {
      RestoredIs(was, now, paths, home);
      var j := FirstAt(paths, p, i);
      assert !AcceptsAt(Saved(was, paths), now, paths[..j], paths[j], home);
    } else if p !in now && Clear(now, p) && UnderHome(home, p) {
      OneFileIsRestoredIff(was, now, p, home);
      RestoredIs(was, now, [p], home);
      assert p in [p];
    }
  }

  // What is on record for a link, and that it cannot be restored while nothing has changed.
  lemma {:induction false} LinkIsBackedButNotRestored(was: Files, p: Path, end: Path, home: Path)
    requires p in was && was[p] == Link(end) && end in was && was[end].Regular?
    ensures Created(was, [p]).entries == [Entry(p, ArchiveName(p), true, was[end].mode)]
    ensures Created(was, [p]).archive == [Member(ArchiveName(p), was[end].data)]
    ensures Restored(was, Created(was, [p]), home).None?
  {
    hide Restored, ArchiveName;
    assert [p][..0] == [] && Entries(was, []) == [] && Members(was, []) == [];
    assert Entries(was, [p]) == [EntryOf(was, p)] && Members(was, [p]) == MemberOf(was, p);
    LinksAreRestoredOnceGone(was, was, [p], 0, home);
  }

  // Where p occurs first.
  ghost function FirstAt(paths: seq<Path>, p: Path, i: nat): (j: nat)
    requires i < |paths| && paths[i] == p
    ensures j <= i && paths[j] == p && p !in paths[..j]
  {
    if p in paths[..i] then
      var k :| 0 <= k < i && paths[k] == p;
      FirstAt(paths, p, k)
    else i
  }

  // The size limit is real: a larger file, once put back, stops the next run.
  lemma {:induction false} OversizedStopsRestart(was: Files, now: Files, p: Path, home: Path)
    requires Backed(was, p) && |FileAt(was, p).data| > MAX_COMPARED && p !in now && Clear(now, p) && UnderHome(home, p)
    ensures var b := Created(was, [p]);
            Restored(now, b, home).Some? && Restored(Restored(now, b, home).value, b, home).None?
  {
    hide InTheWay, UnderHome, Restored, Created, Clear;
    OneFileIsRestoredIff(was, now, p, home);
    OneFileIsRestoredIff(was, Restored(now, Created(was, [p]), home).value, p, home);
  }

  // ----- directories -----

  // A path not recorded as a file, and now a directory with something in it, stops the restore.
  lemma {:induction false} FullDirectoryStopsRestore(was: Files, now: Files, paths: seq<Path>, home: Path, i: nat,
                                                     inside: Path)
    requires i < |paths| && inside in now && inside !in paths && Below(paths[i], inside)
    ensures Restored(now, Created(was, paths), home).None?
  {
    hide Restored, Created, UnderHome, Below, Saved;
    RestoredIs(was, now, paths, home);
    assert inside !in paths[..i];
    assert InTheWay(now, inside, paths[i]);
    assert !AcceptsAt(Saved(was, paths), now, paths[..i], paths[i], home);
  }

  // A listed directory is on record as absent. Put back before a file inside it, it does not stop the restore
  // when it is gone, but it stops the next one.
  lemma {:induction false} ListedDirectoryStopsRestart(was: Files, dir: Path, file: Path, home: Path)
    requires dir in was && was[dir].Directory? && file in was && was[file].Regular? && Below(dir, file)
    requires UnderHome(home, dir) && UnderHome(home, file)
    ensures var b := Created(was, [dir, file]);
            Restored(map[], b, home).Some? && Restored(Restored(map[], b, home).value, b, home).None?
  {
    hide Restored, Created, UnderHome, Below;
    var paths, saved := [dir, file], Saved(was, [dir, file]);
    var now: Files := map[];
    NotBelowItself(dir, file);
    assert paths[..0] == [] && paths[..1] == [dir] && paths[0] == dir && paths[1] == file;
    assert AcceptsAt(saved, now, paths[..0], paths[0], home) && AcceptsAt(saved, now, paths[..1], paths[1], home);
    RestoredIs(was, now, paths, home);
    var after := PutBack(saved, now, paths);
    RestoredIs(was, after, paths, home);
    assert file in after && InTheWay(after, file, dir);
    assert !AcceptsAt(saved, after, paths[..0], paths[0], home);
  }

  lemma NotBelowItself(dir: Path, file: Path)
    requires Below(dir, file)
    ensures dir != file && !Below(file, dir)
  {
  }
}
