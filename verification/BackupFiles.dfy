/**
 Backups of configuration files: what a backup holds, and what restoring it does.

 Paths are absolute and clean. A link is represented by the location its chain ends in. A directory may
 have a node of its own; one that only has files below it, and no link to it, need not. No directory on
 the way is a link.
 */
module BackupFiles {
  import opened Wrappers

  type Path = string
  type Bytes = seq<bv8>

  datatype Node = Regular(data: Bytes, mode: nat) | Link(end: Path) | Directory | Special

  type Files = map<Path, Node>

  const DEFAULT_MODE: nat := 420  // 0644
  const MAX_COMPARED: nat := 16777216

  datatype Entry = Entry(path: Path, name: string, existed: bool, mode: nat)

  // A member of the archive; names may repeat, and the last one wins when it is unpacked.
  datatype Member = Member(name: string, data: Bytes)

  // `compressed` says there is an archive at all.
  datatype Backup = Backup(entries: seq<Entry>, archive: seq<Member>, compressed: bool, count: nat)

  // ----- making a backup -----

  function ArchiveName(p: Path): string {
    var relative := if p != "" && p[0] == '/' then p[1..] else p;
    "files/" + (if relative == "" then "root" else relative)
  }

  // What following a link at p gives.
  function Followed(fs: Files, p: Path): Path {
    if p in fs && fs[p].Link? then fs[p].end else p
  }

  // A path is backed up when following it leads to a regular file.
  predicate Backed(fs: Files, p: Path) {
    Followed(fs, p) in fs && fs[Followed(fs, p)].Regular?
  }

  function FileAt(fs: Files, p: Path): Node
    requires Backed(fs, p)
  {
    fs[Followed(fs, p)]
  }

  function EntryOf(fs: Files, p: Path): Entry {
    if Backed(fs, p) then Entry(p, ArchiveName(p), true, FileAt(fs, p).mode) else Entry(p, "", false, 0)
  }

  function MemberOf(fs: Files, p: Path): seq<Member> {
    if Backed(fs, p) then [Member(ArchiveName(p), FileAt(fs, p).data)] else []
  }

  function Entries(fs: Files, paths: seq<Path>): seq<Entry> {
    if paths == [] then [] else Entries(fs, paths[..|paths| - 1]) + [EntryOf(fs, paths[|paths| - 1])]
  }

  function Members(fs: Files, paths: seq<Path>): seq<Member> {
    if paths == [] then [] else Members(fs, paths[..|paths| - 1]) + MemberOf(fs, paths[|paths| - 1])
  }

  function Created(fs: Files, paths: seq<Path>): Backup {
    Backup(Entries(fs, paths), Members(fs, paths), Members(fs, paths) != [], |Members(fs, paths)|)
  }

  /** Snapshotter.Create: manifest entries, archive and count in one pass over the paths. */
  method Create(fs: Files, paths: seq<Path>) returns (b: Backup)
    ensures b == Created(fs, paths)
    ensures b.count == 0 <==> !b.compressed
  {
    var entries: seq<Entry>, archive: seq<Member>, count: nat := [], [], 0;
    for k := 0 to |paths|
      invariant entries == Entries(fs, paths[..k]) && archive == Members(fs, paths[..k]) && count == |archive|
    {
      assert paths[..k + 1][..k] == paths[..k] && paths[..k + 1][k] == paths[k];
      entries := entries + [EntryOf(fs, paths[k])];
      if Backed(fs, paths[k]) {
        count := count + 1;
        archive := archive + [Member(ArchiveName(paths[k]), FileAt(fs, paths[k]).data)];
      }
    }
    assert paths[..|paths|] == paths;
    return Backup(entries, archive, archive != [], count);
  }

  function Unpacked(archive: seq<Member>): map<string, Bytes> {
    if archive == [] then map[]
    else Unpacked(archive[..|archive| - 1])[archive[|archive| - 1].name := archive[|archive| - 1].data]
  }

  method Extract(archive: seq<Member>) returns (files: map<string, Bytes>)
    ensures files == Unpacked(archive)
  {
    files := map[];
    for k := 0 to |archive|
      invariant files == Unpacked(archive[..k])
    {
      assert archive[..k + 1][..k] == archive[..k] && archive[..k + 1][k] == archive[k];
      files := files[archive[k].name := archive[k].data];
    }
    assert archive[..|archive|] == archive;
  }

  predicate Absolute(p: Path) {
    |p| > 1 && p[0] == '/'
  }

  predicate Rooted(p: Path) {
    p != "" && p[0] == '/'
  }

  predicate RootAndItsName(p: Path, q: Path) {
    p == "/" && q == "/root"
  }

  /** Archive names are injective on absolute paths, but for the root and the file that spells it. */
  lemma ArchiveNamesAreInjective(p: Path, q: Path)
    requires Rooted(p) && Rooted(q)
    ensures ArchiveName(p) == ArchiveName(q) <==> p == q || RootAndItsName(p, q) || RootAndItsName(q, p)
  {
    assert "/root"[1..] == "root";
    assert p == "/" + p[1..] && q == "/" + q[1..];
    assert forall s: string :: ("files/" + s)[6..] == s;
    if p != "/" && q != "/" && ArchiveName(p) == ArchiveName(q) {
      assert ("files/" + p[1..])[6..] == p[1..] && ("files/" + q[1..])[6..] == q[1..];
    } else if q != "/" && ArchiveName(p) == ArchiveName(q) {
      assert ("files/" + "root")[6..] == "root" && ("files/" + q[1..])[6..] == q[1..];
      assert q == "/root";
    } else if p != "/" && ArchiveName(p) == ArchiveName(q) {
      assert ("files/" + "root")[6..] == "root" && ("files/" + p[1..])[6..] == p[1..];
      assert p == "/root";
    }
  }

  // Unpacking finds every backed file under its own name.
  lemma {:induction false} UnpackedHolds(fs: Files, paths: seq<Path>, p: Path)
    requires (forall q :: q in paths ==> Absolute(q)) && p in paths && Backed(fs, p)
    ensures ArchiveName(p) in Unpacked(Members(fs, paths)) && Unpacked(Members(fs, paths))[ArchiveName(p)] == FileAt(fs, p).data
    decreases |paths|
  {
    var init, last := paths[..|paths| - 1], paths[|paths| - 1];
    assert forall q :: q in init ==> q in paths;
    if Backed(fs, last) {
      var m := Member(ArchiveName(last), FileAt(fs, last).data);
      assert Members(fs, paths) == Members(fs, init) + [m];
      assert (Members(fs, init) + [m])[..|Members(fs, init)|] == Members(fs, init);
      if ArchiveName(p) == ArchiveName(last) {
        assert Absolute(p) && Absolute(last);
        ArchiveNamesAreInjective(p, last);
      } else {
        assert p in init;
        UnpackedHolds(fs, init, p);
      }
    } else {
      assert p in init;
      assert Members(fs, paths) == Members(fs, init);
      UnpackedHolds(fs, init, p);
    }
  }

  // ----- restoring it -----

  predicate UnderHome(home: Path, p: Path) {
    Below(home, p) && p[0] == '/'
  }

  predicate Below(dir: Path, p: Path) {
    |dir| + 1 < |p| && p[|dir|] == '/' && forall i :: 0 <= i < |dir| ==> p[i] == dir[i]
  }

  // The node at l keeps p from being a file that can be written or removed: l is under p, so that p is a
  // directory that is not empty, or p would be under l, which is no directory.
  predicate InTheWay(fs: Files, l: Path, p: Path) {
    l in fs && (Below(p, l) || (Below(l, p) && !fs[l].Directory?))
  }

  predicate Clear(fs: Files, p: Path) {
    forall l :: l in fs ==> !InTheWay(fs, l, p)
  }

  // The atomic writer refuses what is not a regular file, and a file too large to compare with.
  predicate Writable(fs: Files, p: Path) {
    p in fs ==> fs[p].Regular? && |fs[p].data| <= MAX_COMPARED
  }

  // A path that exists is followed, and what it leads to must be under home too.
  predicate StaysHome(fs: Files, home: Path, p: Path) {
    UnderHome(home, p) && (Followed(fs, p) in fs ==> UnderHome(home, Followed(fs, p)))
  }

  function Rewritten(data: Bytes, mode: nat): Node {
    Regular(data, if mode == 0 then DEFAULT_MODE else mode)
  }

  // Equal bytes are left alone, mode included.
  function Written(fs: Files, p: Path, data: Bytes, mode: nat): Files {
    if p in fs && fs[p].Regular? && fs[p].data == data then fs else fs[p := Rewritten(data, mode)]
  }

  // None when the entry fails; the restore stops there.
  function RestoreEntry(fs: Files, e: Entry, files: map<string, Bytes>, home: Path): Option<Files> {
    if !StaysHome(fs, home, e.path) then None
    else if !e.existed then (if Clear(fs, e.path) then Some(fs - {e.path}) else None)
    else if e.name !in files || !Clear(fs, e.path) || !Writable(fs, e.path) then None
    else Some(Written(fs, e.path, files[e.name], e.mode))
  }

  /** What restoring one entry leaves. A file gets its bytes, and with them its mode, 0644 when none was recorded;
      when the bytes were there already, so is its mode as it was. An absent path is gone. Nothing else changes. */
  lemma RestoredEntryIs(fs: Files, e: Entry, files: map<string, Bytes>, home: Path)
    requires RestoreEntry(fs, e, files, home).Some?
    ensures var after := RestoreEntry(fs, e, files, home).value;
            && (e.path in after <==> e.existed)
            && (e.existed ==>
                  && e.name in files && after[e.path].Regular? && after[e.path].data == files[e.name]
                  && after[e.path].mode ==
                     if e.path in fs && fs[e.path].Regular? && fs[e.path].data == files[e.name] then fs[e.path].mode
                     else if e.mode == 0 then 0x1A4 else e.mode)
            && forall l :: l != e.path ==> (l in after <==> l in fs) && (l in fs ==> after[l] == fs[l])
  {
  }

  function RestoreEntries(fs: Files, entries: seq<Entry>, files: map<string, Bytes>, home: Path): Option<Files> {
    if entries == [] then Some(fs)
    else
      match RestoreEntries(fs, entries[..|entries| - 1], files, home)
      case None => None
      case Some(before) => RestoreEntry(before, entries[|entries| - 1], files, home)
  }

  // Without an archive there is nothing to unpack, and no entry that existed.
  function Contents(b: Backup): map<string, Bytes> {
    if b.compressed then Unpacked(b.archive) else map[]
  }

  function Restored(fs: Files, b: Backup, home: Path): Option<Files> {
    RestoreEntries(fs, b.entries, Contents(b), home)
  }

  // The files after the first k entries.
  predicate ReachedAfter(fs: Files, b: Backup, home: Path, k: nat, reached: Files)
    requires k <= |b.entries|
  {
    RestoreEntries(fs, b.entries[..k], Contents(b), home) == Some(reached)
  }

  class Home {
    var files: Files
    const home: Path

    constructor (files: Files, home: Path)
      ensures this.files == files && this.home == home
    {
      this.files := files;
      this.home := home;
    }

    method WriteAtomic(p: Path, data: Bytes, mode: nat) returns (ok: bool)
      modifies this
      ensures ok == (Clear(old(files), p) && Writable(old(files), p))
      ensures files == if ok then Written(old(files), p, data, mode) else old(files)
    {
      if p in files && (!files[p].Regular? || |files[p].data| > MAX_COMPARED) { return false; }
      ok := Clear(files, p);
      if ok && !(p in files && files[p].data == data) { files := files[p := Rewritten(data, mode)]; }
    }

    // Removing what is not there succeeds; a directory that is not empty stays.
    method Remove(p: Path) returns (ok: bool)
      modifies this
      ensures ok == Clear(old(files), p)
      ensures files == if ok then old(files) - {p} else old(files)
    {
      ok := Clear(files, p);
      if ok { files := files - {p}; }
    }

    /** RestoreService.Restore: the entries in order, stopping at the first that fails. */
    method Restore(b: Backup) returns (ok: bool)
      modifies this
      ensures ok == Restored(old(files), b, home).Some?
      ensures ok ==> files == Restored(old(files), b, home).value
      ensures !ok ==> exists k :: 0 <= k <= |b.entries| && ReachedAfter(old(files), b, home, k, files)
    {
      var contents: map<string, Bytes> := map[];
      if b.compressed { contents := Extract(b.archive); }
      for k := 0 to |b.entries|
        invariant contents == Contents(b) && ReachedAfter(old(files), b, home, k, files)
      {
        var e := b.entries[k];
        assert b.entries[..k + 1][..k] == b.entries[..k] && b.entries[..k + 1][k] == e;
        if !StaysHome(files, home, e.path) {
          Stops(old(files), b.entries, k, contents);
          return false;
        }
        if !e.existed {
          var removed := Remove(e.path);
          if !removed {
            Stops(old(files), b.entries, k, contents);
            return false;
          }
        } else {
          if e.name !in contents {
            Stops(old(files), b.entries, k, contents);
            return false;
          }
          var wrote := WriteAtomic(e.path, contents[e.name], e.mode);
          if !wrote {
            Stops(old(files), b.entries, k, contents);
            return false;
          }
        }
      }
      assert b.entries[..|b.entries|] == b.entries;
      return true;
    }

    lemma Stops(before: Files, entries: seq<Entry>, k: nat, contents: map<string, Bytes>)
      requires k < |entries| && RestoreEntries(before, entries[..k + 1], contents, home).None?
      ensures RestoreEntries(before, entries, contents, home).None?
    {
      FailureStops(before, entries, k + 1, contents, home);
    }
  }

  lemma {:induction false} FailureStops(fs: Files, entries: seq<Entry>, k: nat, files: map<string, Bytes>, home: Path)
    requires k <= |entries| && RestoreEntries(fs, entries[..k], files, home).None?
    ensures RestoreEntries(fs, entries, files, home).None?
    decreases |entries|
  {
    if k < |entries| {
      assert entries[..|entries| - 1][..k] == entries[..k];
      FailureStops(fs, entries[..|entries| - 1], k, files, home);
    } else {
      assert entries[..k] == entries;
    }
  }
}
