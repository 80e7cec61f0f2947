/**
 Which backups are kept: deduplication against the newest, pruning, and the newest-first list.
 */
module BackupRetention {
  import opened Wrappers
  import opened BackupFiles
  import opened BackupChecksum
  import opened StatusStrings

  const RETENTION_COUNT: nat := 5

  datatype Stored = Stored(id: nat, createdAt: int, pinned: bool, checksum: Checksum, backup: Backup)

  // ----- newest first -----

  predicate NewestFirst(s: seq<Stored>) {
    forall i, j :: 0 <= i < j < |s| ==> s[j].createdAt <= s[i].createdAt
  }

  predicate SameBackups(a: seq<Stored>, b: seq<Stored>) {
    multiset(a) == multiset(b)
  }

  lemma ExchangeKeepsBackups(s: seq<Stored>, i: nat, j: nat)
    requires i < j < |s|
    ensures SameBackups(s[i := s[j]][j := s[i]], s)
  {
    assert s == s[..i] + [s[i]] + s[i + 1..j] + [s[j]] + s[j + 1..];
    assert s[i := s[j]][j := s[i]] == s[..i] + [s[j]] + s[i + 1..j] + [s[i]] + s[j + 1..];
  }

  // The first n are final: newest first, and none older than what follows.
  predicate Placed(s: seq<Stored>, n: nat)
    requires n <= |s|
  {
    forall i, j :: 0 <= i < n && i < j < |s| ==> s[j].createdAt <= s[i].createdAt
  }

  // s[i] is at least as new as everything between i and m.
  predicate Leads(s: seq<Stored>, i: nat, m: nat)
    requires i < |s| && m <= |s|
  {
    forall j :: i < j < m ==> s[j].createdAt <= s[i].createdAt
  }

  method SelectNewest(a: array<Stored>, i: nat, ghost all: seq<Stored>)
    requires i < a.Length && Placed(a[..], i) && SameBackups(a[..], all)
    modifies a
    ensures Placed(a[..], i + 1) && SameBackups(a[..], all)
  {
    hide SameBackups;
    for j := i + 1 to a.Length
      invariant Placed(a[..], i) && SameBackups(a[..], all) && Leads(a[..], i, j)
    {
      if a[j].createdAt > a[i].createdAt {
        ghost var before := a[..];
        ExchangeKeepsBackups(before, i, j);
        a[i], a[j] := a[j], a[i];
        assert a[..] == before[i := before[j]][j := before[i]];
        SameTrans(a[..], before, all);
      }
    }
  }

  lemma SameTrans(a: seq<Stored>, b: seq<Stored>, c: seq<Stored>)
    requires SameBackups(a, b) && SameBackups(b, c)
    ensures SameBackups(a, c)
  {
  }

  /** The exchange sort of the restore list: newest first, and the same backups. */
  method ExchangeSort(a: array<Stored>)
    modifies a
    ensures NewestFirst(a[..]) && SameBackups(a[..], old(a[..]))
  {
    hide SameBackups;
    assert SameBackups(a[..], old(a[..])) by { SameRefl(a[..]); }
    for i := 0 to a.Length
      invariant Placed(a[..], i) && SameBackups(a[..], old(a[..]))
    {
      SelectNewest(a, i, old(a[..]));
    }
  }

  lemma SameRefl(a: seq<Stored>)
    ensures SameBackups(a, a)
  {
  }

  method SortedBackups(all: seq<Stored>) returns (sorted: seq<Stored>)
    ensures NewestFirst(sorted) && SameBackups(sorted, all)
  {
    if all == [] { return []; }
    var a := new Stored[|all|](i requires 0 <= i < |all| => all[i]);
    assert a[..] == all;
    ExchangeSort(a);
    return a[..];
  }

  // resolveRestoreTarget: the backup with an id, or the head of the list for "latest".
  datatype Target = Latest | ById(id: nat)

  method ResolveTarget(t: Target, backups: seq<Stored>) returns (r: Option<Stored>)
    requires NewestFirst(backups)
    ensures r.Some? ==> r.value in backups
    ensures t.Latest? ==> (r.Some? <==> backups != []) && (r.Some? ==> forall b :: b in backups ==> b.createdAt <= r.value.createdAt)
    ensures t.ById? ==> (r.Some? <==> exists b :: b in backups && b.id == t.id) && (r.Some? ==> r.value.id == t.id)
  {
    match t {
      case Latest =>
        if backups == [] { return None; }
        return Some(backups[0]);
      case ById(id) =>
        for k := 0 to |backups|
          invariant forall b :: b in backups[..k] ==> b.id != id
        {
          if backups[k].id == id { return Some(backups[k]); }
        }
        assert backups[..|backups|] == backups;
        return None;
    }
  }

  // ----- deduplication -----

  // The first of the newest.
  ghost predicate IsNewest(all: seq<Stored>, k: nat) {
    && k < |all|
    && (forall j :: 0 <= j < |all| ==> all[j].createdAt <= all[k].createdAt)
    && (forall j :: 0 <= j < k ==> all[j].createdAt < all[k].createdAt)
  }

  lemma NewestIsUnique(all: seq<Stored>, j: nat, k: nat)
    requires IsNewest(all, j) && IsNewest(all, k)
    ensures j == k
  {
    assert all[j].createdAt == all[k].createdAt;
  }

  // The first of the newest among the first n.
  ghost predicate NewestOf(all: seq<Stored>, n: nat, k: nat) {
    && k < n <= |all|
    && (forall j :: 0 <= j < n ==> all[j].createdAt <= all[k].createdAt)
    && (forall j :: 0 <= j < k ==> all[j].createdAt < all[k].createdAt)
  }

  /** IsDuplicate: a running maximum, the first of equals kept. */
  method IsDuplicate(all: seq<Stored>, c: Checksum) returns (duplicate: bool)
    ensures duplicate <==> c.Sum? && exists k: nat :: IsNewest(all, k) && all[k].checksum == c
  {
    if c.NoChecksum? || all == [] { return false; }
    var latest := 0;
    for j := 1 to |all|
      invariant NewestOf(all, j, latest)
    {
      if all[j].createdAt > all[latest].createdAt { latest := j; }
    }
    assert IsNewest(all, latest);
    forall k: nat | IsNewest(all, k) ensures k == latest { NewestIsUnique(all, k, latest); }
    return all[latest].checksum == c;
  }

  // `s` was made from the files `was`, for the targets `paths`; a checksum that failed was left out.
  ghost predicate MadeFrom(hash: Bytes -> string, s: Stored, was: Files, paths: seq<Path>) {
    && s.backup == Created(was, paths)
    && (if Existing(was, paths) == [] then s.checksum == EMPTY_SET
        else s.checksum == NoChecksum || IsChecksum(hash, was, paths, s.checksum))
  }

  predicate AllAbsolute(paths: seq<Path>) {
    forall p :: p in paths ==> Absolute(p)
  }

  lemma TextIsNotEmpty(hash: Bytes -> string, fs: Files, targets: seq<Path>, c: Checksum)
    requires IsChecksum(hash, fs, targets, c) && c.Sum?
    ensures c != EMPTY_SET
  {
    var s :| Sorted(s) && Permutes(s, Existing(fs, targets)) && c == Sum(Text(hash, fs, s));
    SameSize(s, Existing(fs, targets));
    assert |Text(hash, fs, s)| > 0;
  }

  /** Deduplication is sound: whenever the checksum of the targets equals that of a backup, the backup
      already holds every existing target, under its own name and byte for byte. */
  lemma {:induction false} SkippingIsSound(hash: Bytes -> string, s: Stored, was: Files, paths: seq<Path>, fs: Files, targets: seq<Path>, p: Path)
    requires MadeFrom(hash, s, was, paths) && IsChecksum(hash, fs, targets, s.checksum) && s.checksum.Sum?
    requires NewlineFree(paths) && NewlineFree(targets) && AllAbsolute(paths)
    requires HashOf(hash, ContentsOf(was, paths) + ContentsOf(fs, targets))
    requires p in targets && Backed(fs, p)
    ensures EntryOf(was, p) in s.backup.entries && EntryOf(was, p).existed
    ensures ArchiveName(p) in Contents(s.backup) && Contents(s.backup)[ArchiveName(p)] == FileAt(fs, p).data
  {
    TextIsNotEmpty(hash, fs, targets, s.checksum);
    ChecksumDeterminesFiles(hash, fs, targets, was, paths, s.checksum) by {
      assert ContentsOf(fs, targets) + ContentsOf(was, paths) == ContentsOf(was, paths) + ContentsOf(fs, targets);
    }
    ExistingAre(fs, targets);
    ExistingAre(was, paths);
    assert p in Existing(fs, targets);
    assert p in multiset(Existing(was, paths));
    UnpackedHolds(was, paths, p);
    EntryIsListed(was, paths, p);
  }

  lemma {:induction false} EntryIsListed(fs: Files, paths: seq<Path>, p: Path)
    requires p in paths
    ensures EntryOf(fs, p) in Entries(fs, paths)
  {
    if p != paths[|paths| - 1] {
      assert p in paths[..|paths| - 1];
      EntryIsListed(fs, paths[..|paths| - 1], p);
    }
  }

  // ----- pruning -----

  function Unpinned(all: seq<Stored>): seq<Stored> {
    if all == [] then []
    else if all[|all| - 1].pinned then Unpinned(all[..|all| - 1])
    else Unpinned(all[..|all| - 1]) + [all[|all| - 1]]
  }

  lemma {:induction false} UnpinnedAre(all: seq<Stored>)
    ensures forall s :: s in Unpinned(all) <==> s in all && !s.pinned
    ensures NewestFirst(all) ==> NewestFirst(Unpinned(all))
    ensures |Unpinned(all)| <= |all|
    decreases |all|
  {
    if all != [] {
      var init, last := all[..|all| - 1], all[|all| - 1];
      UnpinnedAre(init);
      assert all == init + [last];
    }
  }

  // Backups live in directories of their own.
  predicate DistinctIds(all: seq<Stored>) {
    forall i, j :: 0 <= i < j < |all| ==> all[i].id != all[j].id
  }

  // No backup occurs twice.
  predicate NoRepeats(all: seq<Stored>) {
    forall s :: s in all ==> multiset(all)[s] == 1
  }

  lemma {:induction false} DistinctIdsRepeatNothing(all: seq<Stored>)
    requires DistinctIds(all)
    ensures NoRepeats(all)
    decreases |all|
  {
    if all != [] {
      var init, last := all[..|all| - 1], all[|all| - 1];
      DistinctIdsRepeatNothing(init);
      assert all == init + [last];
      assert last !in init;
      assert multiset(all) == multiset(init) + multiset{last};
      assert last !in multiset(init);
    }
  }

  lemma {:induction false} UnpinnedRepeatNothing(all: seq<Stored>)
    requires NoRepeats(all)
    ensures NoRepeats(Unpinned(all))
    decreases |all|
  {
    forall s ensures multiset(Unpinned(all))[s] <= multiset(all)[s] { UnpinnedCounts(all, s); }
    UnpinnedAre(all);
  }

  lemma {:induction false} UnpinnedCounts(all: seq<Stored>, s: Stored)
    ensures multiset(Unpinned(all))[s] <= multiset(all)[s]
    decreases |all|
  {
    if all != [] {
      UnpinnedCounts(all[..|all| - 1], s);
      assert all == all[..|all| - 1] + [all[|all| - 1]];
    }
  }

  lemma SameBackupsRepeatNothing(a: seq<Stored>, b: seq<Stored>)
    requires SameBackups(a, b) && NoRepeats(b)
    ensures NoRepeats(a)
  {
    forall s | s in a ensures multiset(a)[s] == 1 {
      assert s in multiset(a);
      assert s in multiset(b);
    }
  }

  lemma SplitRepeatsNothing(all: seq<Stored>, k: nat)
    requires NoRepeats(all) && k <= |all|
    ensures forall s :: s in all[k..] ==> s !in all[..k]
  {
    assert all == all[..k] + all[k..];
    assert multiset(all) == multiset(all[..k]) + multiset(all[k..]);
    forall s | s in all[k..] ensures s !in all[..k] {
      assert s in multiset(all[k..]) && s in all;
      assert multiset(all[..k])[s] == 0;
    }
  }

  // Deleting a backup directory may fail; `stuck` are the ids for which it does.
  method DeleteAll(excess: seq<Stored>, stuck: set<nat>) returns (deleted: seq<Stored>)
    ensures forall s :: s in deleted <==> s in excess && s.id !in stuck
  {
    deleted := [];
    for k := 0 to |excess|
      invariant forall s :: s in deleted <==> s in excess[..k] && s.id !in stuck
    {
      if excess[k].id !in stuck { deleted := deleted + [excess[k]]; }
      assert excess[..k + 1] == excess[..k] + [excess[k]];
    }
    assert excess[..|excess|] == excess;
  }

  /** Prune: never a pinned backup, never one newer than an unpinned one it keeps, and of the unpinned no
      more than `keep` are left but those that could not be deleted. */
  method Prune(all: seq<Stored>, keep: nat, stuck: set<nat>) returns (deleted: seq<Stored>, kept: seq<Stored>)
    requires DistinctIds(all)
    ensures forall s :: s in deleted ==> s !in kept
    ensures forall s :: s in deleted ==> s in all && !s.pinned
    ensures keep == 0 ==> deleted == []
    ensures forall s :: s in kept ==> s in all && !s.pinned
    ensures keep > 0 ==> |kept| <= keep && NewestFirst(kept)
    ensures keep > 0 ==> forall s :: s in all && !s.pinned && s !in deleted && s.id !in stuck ==> s in kept
    ensures forall s, t :: s in deleted && t in kept ==> s.createdAt <= t.createdAt
    ensures keep > 0 && deleted != [] ==> |kept| == keep
  {
    hide NoRepeats, SameBackups, NewestFirst, DistinctIds, Unpinned;
    if keep == 0 { return [], []; }
    var sorted := SortedBackups(all);
    var unpinned := Unpinned(sorted);
    UnpinnedOf(all, sorted);
    if |unpinned| <= keep { return [], unpinned; }
    SplitIsOrdered(unpinned, keep);
    kept := unpinned[..keep];
    deleted := DeleteAll(unpinned[keep..], stuck);
    assert unpinned == kept + unpinned[keep..];
  }

  lemma {:induction false} UnpinnedOf(all: seq<Stored>, sorted: seq<Stored>)
    requires DistinctIds(all) && NewestFirst(sorted) && SameBackups(sorted, all)
    ensures NewestFirst(Unpinned(sorted)) && NoRepeats(Unpinned(sorted))
    ensures forall s :: s in Unpinned(sorted) <==> s in all && !s.pinned
  {
    UnpinnedAre(sorted);
    forall s ensures s in sorted <==> s in all { assert s in multiset(sorted) <==> s in multiset(all); }
    DistinctIdsRepeatNothing(all);
    SameBackupsRepeatNothing(sorted, all);
    UnpinnedRepeatNothing(sorted);
  }

  lemma SplitIsOrdered(s: seq<Stored>, k: nat)
    requires NewestFirst(s) && NoRepeats(s) && k <= |s|
    ensures NewestFirst(s[..k])
    ensures forall x :: x in s[k..] ==> x !in s[..k]
    ensures forall x, y :: x in s[k..] && y in s[..k] ==> x.createdAt <= y.createdAt
  {
    SplitRepeatsNothing(s, k);
    forall x, y | x in s[k..] && y in s[..k] ensures x.createdAt <= y.createdAt {
      var i :| 0 <= i < |s| - k && s[k..][i] == x;
      var j :| 0 <= j < k && s[..k][j] == y;
      assert s[k + i] == x && s[j] == y;
    }
  }

  // ----- the backup step -----

  // What a stored backup was made from.
  datatype Origin = Origin(files: Files, paths: seq<Path>)

  predicate Spellable(paths: seq<Path>) {
    NewlineFree(paths) && AllAbsolute(paths)
  }

  // `s` holds every existing target, byte for byte.
  ghost predicate HoldsAll(s: Stored, fs: Files, targets: seq<Path>) {
    forall p :: p in targets && Backed(fs, p) ==>
      ArchiveName(p) in Contents(s.backup) && Contents(s.backup)[ArchiveName(p)] == FileAt(fs, p).data
  }

  class BackupRoot {
    const hash: Bytes -> string
    var stored: seq<Stored>
    var manifest: Option<Backup>  // what a rollback would restore

    // All contents that ever occur, and what each backup of these programs was made from. An older backup
    // has no checksum, and its origin is not known.
    ghost const contents: set<Bytes>
    ghost var origins: map<nat, Origin>

    ghost predicate Valid()
      reads this
    {
      HashOf(hash, contents) && DistinctIds(stored) && forall s :: s in stored ==> Known(s)
    }

    ghost predicate Known(s: Stored)
      reads this
    {
      s.checksum == NoChecksum ||
      (s.id in origins && MadeFrom(hash, s, origins[s.id].files, origins[s.id].paths) &&
       ContentsOf(origins[s.id].files, origins[s.id].paths) <= contents)
    }

    ghost predicate AllSpellable()
      reads this
    {
      forall id :: id in origins ==> Spellable(origins[id].paths)
    }

    constructor (hash: Bytes -> string, ghost contents: set<Bytes>, stored: seq<Stored>)
      requires HashOf(hash, contents) && DistinctIds(stored) && forall s :: s in stored ==> s.checksum == NoChecksum
      ensures Valid() && this.hash == hash && this.contents == contents && this.stored == stored && manifest == None
    {
      this.hash, this.contents, this.stored := hash, contents, stored;
      manifest := None;
      origins := map[];
    }

    // Every run of the program begins with no manifest.
    method StartRun()
      requires Valid()
      modifies this`manifest
      ensures Valid() && manifest == None
    {
      manifest := None;
    }

    method Remove(deleted: seq<Stored>)
      requires DistinctIds(stored)
      modifies this`stored
      ensures DistinctIds(stored)
      ensures forall s :: s in stored <==> s in old(stored) && s !in deleted
    {
      var left: seq<Stored> := [];
      for k := 0 to |stored|
        invariant stored == old(stored) && DistinctIds(left)
        invariant forall s :: s in left <==> s in stored[..k] && s !in deleted
      {
        assert forall s :: s in left ==> s.id != stored[k].id;
        if stored[k] !in deleted { left := left + [stored[k]]; }
        assert stored[..k + 1] == stored[..k] + [stored[k]];
      }
      assert stored[..|stored|] == stored;
      stored := left;
    }

    /** prepareBackupStep.Run: skip when the newest backup has the same checksum, and otherwise create a
        backup, remember its manifest, and prune. Whatever runs came before, when it skips the newest backup
        holds every existing target. Pinned backups stay; a backup newer than all before it stays too, so a
        rollback finds what it needs. */
    method Prepare(fs: Files, targets: seq<Path>, id: nat, at: int, stuck: set<nat>) returns (skipped: bool)
      requires Valid() && manifest.None? && id !in origins && forall s :: s in stored ==> s.id != id
      requires ContentsOf(fs, targets) <= contents
      modifies this
      ensures Valid()
      ensures skipped <==> NewestMatches(hash, fs, targets, old(stored))
      ensures skipped ==> stored == old(stored) && origins == old(origins) && manifest.None?
      ensures skipped && AllSpellable() && Spellable(targets) ==>
                exists k: nat :: IsNewest(stored, k) && HoldsAll(stored[k], fs, targets)
      ensures !skipped ==> manifest == Some(Created(fs, targets)) && origins == old(origins)[id := Origin(fs, targets)]
      ensures !skipped && (forall s :: s in old(stored) ==> s.createdAt < at) ==> KeptNew(hash, stored, id, at, fs, targets)
      ensures forall s :: s in old(stored) && s.pinned ==> s in stored
    {
      var c := ComputeChecksum(hash, fs, targets);
      skipped := IsDuplicate(stored, c);
      MatchIs(hash, fs, targets, stored, c);
      if skipped {
        if AllSpellable() && Spellable(targets) { SkippedHolds(fs, targets); }
        return;
      }
      var backup := Create(fs, targets);
      manifest := Some(backup);
      var made := Stored(id, at, false, if c.NoChecksum? then EMPTY_SET else c, backup);
      assert MadeFrom(hash, made, fs, targets);
      ghost var before := stored;
      origins := origins[id := Origin(fs, targets)];
      assert Known(made) && forall s :: s in before ==> Known(s);
      Record(made, stuck);
    }

    lemma SkippedHolds(fs: Files, targets: seq<Path>)
      requires Valid() && AllSpellable() && Spellable(targets) && ContentsOf(fs, targets) <= contents
      requires NewestMatches(hash, fs, targets, stored)
      ensures exists k: nat :: IsNewest(stored, k) && HoldsAll(stored[k], fs, targets)
    {
      var k: nat :| IsNewest(stored, k) && stored[k].checksum.Sum? && IsChecksum(hash, fs, targets, stored[k].checksum);
      var s := stored[k];
      assert Known(s);
      var was, paths := origins[s.id].files, origins[s.id].paths;
      forall p | p in targets && Backed(fs, p)
        ensures ArchiveName(p) in Contents(s.backup) && Contents(s.backup)[ArchiveName(p)] == FileAt(fs, p).data
      {
        SkippingIsSound(hash, s, was, paths, fs, targets, p);
      }
      assert HoldsAll(stored[k], fs, targets);
    }

    method Record(made: Stored, stuck: set<nat>)
      requires DistinctIds(stored) && forall s :: s in stored ==> s.id != made.id
      modifies this`stored
      ensures DistinctIds(stored)
      ensures (forall s :: s in old(stored) ==> s.createdAt < made.createdAt) ==> made in stored
      ensures forall s :: s in old(stored) && s.pinned ==> s in stored
      ensures forall s :: s in stored ==> s == made || s in old(stored)
    {
      stored := stored + [made];
      var deleted, kept := Prune(stored, RETENTION_COUNT, stuck);
      if forall s :: s in old(stored) ==> s.createdAt < made.createdAt { NewestSurvives(stored, deleted, kept, made); }
      Remove(deleted);
    }

    /** rollbackRestoreStep.Rollback: nothing when no manifest was kept. */
    method Rollback(home: Home) returns (ok: bool)
      modifies home
      ensures manifest.None? || manifest.value.entries == [] ==> ok && home.files == old(home.files)
      ensures manifest.Some? && manifest.value.entries != [] ==>
                ok == Restored(old(home.files), manifest.value, home.home).Some? &&
                (ok ==> home.files == Restored(old(home.files), manifest.value, home.home).value)
    {
      if manifest.None? || manifest.value.entries == [] { return true; }
      ok := home.Restore(manifest.value);
    }
  }

  // The newest backup has the checksum of the targets.
  ghost predicate NewestMatches(hash: Bytes -> string, fs: Files, targets: seq<Path>, all: seq<Stored>) {
    exists k: nat :: IsNewest(all, k) && all[k].checksum.Sum? && IsChecksum(hash, fs, targets, all[k].checksum)
  }

  // The backup just made is among those stored.
  ghost predicate KeptNew(hash: Bytes -> string, all: seq<Stored>, id: nat, at: int, fs: Files, targets: seq<Path>) {
    exists s :: s in all && s.id == id && s.createdAt == at && MadeFrom(hash, s, fs, targets)
  }

  lemma MatchIs(hash: Bytes -> string, fs: Files, targets: seq<Path>, all: seq<Stored>, c: Checksum)
    requires IsChecksum(hash, fs, targets, c)
    ensures NewestMatches(hash, fs, targets, all) <==> c.Sum? && exists k: nat :: IsNewest(all, k) && all[k].checksum == c
  {
    if NewestMatches(hash, fs, targets, all) {
      var k: nat :| IsNewest(all, k) && all[k].checksum.Sum? && IsChecksum(hash, fs, targets, all[k].checksum);
      ChecksumIgnoresOrder(hash, fs, targets, targets, all[k].checksum, c);
    }
  }

  /** Deduplication is complete but for one case. When the files are still those the newest backup was made
      from, in any order, the step skips exactly when at least one of them exists: the checksum of nothing is
      empty, and matches nothing, although a backup of no files is stored with the checksum of the empty
      text so that it would. */
  lemma {:induction false} SameFilesSkipIff(hash: Bytes -> string, all: seq<Stored>, k: nat, was: Files, paths: seq<Path>, fs: Files,
                         targets: seq<Path>)
    requires IsNewest(all, k) && MadeFrom(hash, all[k], was, paths) && all[k].checksum.Sum?
    requires SameFiles(was, paths, fs, targets)
    ensures NewestMatches(hash, fs, targets, all) <==> Existing(fs, targets) != []
  {
    SameSize(Existing(was, paths), Existing(fs, targets));
    if Existing(fs, targets) != [] {
      SameFilesSameChecksum(hash, was, paths, fs, targets, all[k].checksum);
    }
  }

  /** So the step skips exactly when some target exists and the existing targets are, byte for byte, the files
      the newest backup was made from. */
  lemma {:induction false} SkipsIff(hash: Bytes -> string, all: seq<Stored>, k: nat, was: Files, paths: seq<Path>, fs: Files,
                 targets: seq<Path>)
    requires IsNewest(all, k) && MadeFrom(hash, all[k], was, paths) && all[k].checksum.Sum?
    requires NewlineFree(paths) && NewlineFree(targets) && HashOf(hash, ContentsOf(was, paths) + ContentsOf(fs, targets))
    ensures NewestMatches(hash, fs, targets, all) <==>
              Existing(fs, targets) != [] && SameFiles(was, paths, fs, targets)
  {
    if SameFiles(was, paths, fs, targets) {
      SameFilesSkipIff(hash, all, k, was, paths, fs, targets);
    } else if NewestMatches(hash, fs, targets, all) {
      var j: nat :| IsNewest(all, j) && all[j].checksum.Sum? && IsChecksum(hash, fs, targets, all[j].checksum);
      NewestIsUnique(all, j, k);
      TextIsNotEmpty(hash, fs, targets, all[k].checksum);
      ChecksumDeterminesFiles(hash, was, paths, fs, targets, all[k].checksum);
    }
  }

  // The failing input: a backup of no files was just made, and there still are none.
  lemma NoFilesNeverSkipped(hash: Bytes -> string, all: seq<Stored>, k: nat, was: Files, paths: seq<Path>, fs: Files,
                            targets: seq<Path>)
    requires Existing(fs, targets) == []
    ensures !NewestMatches(hash, fs, targets, all)
    ensures IsNewest(all, k) && MadeFrom(hash, all[k], was, paths) && Existing(was, paths) == [] ==>
              all[k].checksum == EMPTY_SET && SameFiles(was, paths, fs, targets)
  {
  }

  // A backup strictly newer than all others is never pruned.
  lemma NewestSurvives(all: seq<Stored>, deleted: seq<Stored>, kept: seq<Stored>, made: Stored)
    requires made in all && (forall s :: s in all && s != made ==> s.createdAt < made.createdAt)
    requires forall s :: s in kept ==> s in all
    requires forall s, t :: s in deleted && t in kept ==> s.createdAt <= t.createdAt
    requires forall s :: s in deleted ==> s !in kept
    requires deleted != [] ==> |kept| == RETENTION_COUNT
    ensures made !in deleted
  {
    assert kept != [] ==> kept[0] in kept;
  }
}
