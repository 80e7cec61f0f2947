/**
 The artifact code itself, working on a directory it updates in place.

 `budget` is how many more file steps the process survives; a step beyond it does not happen and the
 call is over. Each method is proved to perform exactly the steps of its plan, up to the crash, and to
 report the plan's outcome.
 */
module ReviewerStore {
  import Crash
  import opened SlotDisk
  import opened SlotPlans
  import opened SlotSafety

  class Store {
    var disk: Disk
    var budget: nat
    const faults: seq<bool>  // which directory syncs of the current call fail
    var syncs: nat           // directory syncs performed by the current call

    constructor (disk: Disk, budget: nat, faults: seq<bool>)
      ensures this.disk == disk && this.budget == budget && this.faults == faults && syncs == 0
    {
      this.disk := disk;
      this.budget := budget;
      this.faults := faults;
      syncs := 0;
    }

    // What performing `plan` means when it may be cut short.
    ghost predicate Performed(before: Disk, allowed: nat, plan: Plan, out: Outcome)
      reads this
    {
      && disk == Run(before, Cut(plan.ops, allowed))
      && budget == (if allowed < |plan.ops| then 0 else allowed - |plan.ops|)
      && out == (if allowed < |plan.ops| then Crashed else plan.outcome)
    }

    method Perform(op: FileOp) returns (alive: bool)
      modifies this`disk, this`budget
      ensures alive == (old(budget) > 0)
      ensures alive ==> disk == Apply(old(disk), op) && budget == old(budget) - 1
      ensures !alive ==> disk == old(disk) && budget == 0
    {
      alive := budget > 0;
      if alive {
        disk := Apply(disk, op);
        budget := budget - 1;
      }
    }

    method SyncDirectory() returns (out: Outcome)
      modifies this`syncs
      ensures out == Synced(faults, old(syncs)) && syncs == old(syncs) + 1
    {
      out := Synced(faults, syncs);
      syncs := syncs + 1;
    }

    // Performing one plan and then, if it was acknowledged, another, is performing their sequence.
    ghost method Sequence(before: Disk, allowed: nat, first: Plan, mid: Disk, left: nat, second: Plan, out: Outcome)
      requires allowed >= |first.ops| && first.outcome.Acked?
      requires mid == Run(before, first.ops) && left == allowed - |first.ops|
      requires Performed(mid, left, second, out)
      ensures Performed(before, allowed, Then(first, second), out)
    {
      var cut := Cut(second.ops, left);
      RunConcat(before, first.ops, cut);
      assert Cut(first.ops + second.ops, allowed) == first.ops + cut;
    }

    // The three steps of a publication, one at a time.
    method PublishFile(p: Path, c: Content) returns (alive: bool)
      modifies this`disk, this`budget
      ensures var ops := PublishOps(old(disk).files, p, c);
              disk == Run(old(disk), Cut(ops, old(budget))) &&
              budget == (if old(budget) < 3 then 0 else old(budget) - 3) && alive == (old(budget) >= 3)
    {
      ghost var before, allowed := disk, budget;
      ghost var ops := PublishOps(disk.files, p, c);
      assert ops[..0] == [] && Run(before, []) == before;
      alive := Perform(CreateTemp);
      if !alive { return; }
      Crash.StepAppends(Apply, before, ops, 0);
      alive := Perform(FillTemp(c));
      if !alive { return; }
      Crash.StepAppends(Apply, before, ops, 1);
      alive := Perform(if p in disk.files then DropTemp else PublishTemp(p));
      if !alive { return; }
      Crash.StepAppends(Apply, before, ops, 2);
      assert ops[..3] == ops;
    }

    // publishImmutableReviewerFile
    method PublishImmutable(p: Path, c: Content) returns (out: Outcome)
      modifies this
      ensures Performed(old(disk), old(budget), PublishPlan(old(disk).files, p, c, Synced(faults, old(syncs))), out)
      ensures out.Acked? ==> syncs == old(syncs) + 1
    {
      var taken := p in disk.files;
      var same := taken && disk.files[p] == c;
      var alive := PublishFile(p, c);
      if !alive { return Crashed; }
      if taken && !same { return Failed(ArchiveConflict); }
      out := SyncDirectory();
    }

    method RemoveAndSync(p: Path) returns (out: Outcome)
      modifies this
      ensures Performed(old(disk), old(budget), RemovePlan(old(disk).files, p, faults, old(syncs)), out)
      ensures out.Acked? ==> syncs == (if p in old(disk).files then old(syncs) + 1 else old(syncs))
      ensures out.Acked? ==> disk.files == old(disk).files - {p}
    {
      ghost var before, ops := disk, [Remove(p)];
      assert ops[..0] == [] && Run(before, []) == before;
      if p !in disk.files { return Acked; }
      var alive := Perform(Remove(p));
      if !alive { return Crashed; }
      Crash.StepAppends(Apply, before, ops, 0);
      assert ops[..1] == ops;
      out := SyncDirectory();
    }

    method ClearSlot(o: nat) returns (out: Outcome)
      modifies this
      ensures Performed(old(disk), old(budget), ClearPlan(old(disk).files, o, faults, old(syncs)), out)
      ensures out.Acked? ==> syncs == old(syncs) + (if SlotPayload(o) in old(disk).files then 1 else 0)
                                               + (if SlotDigest(o) in old(disk).files then 1 else 0)
    {
      ghost var before, allowed := disk, budget;
      ghost var p1 := RemovePlan(disk.files, SlotPayload(o), faults, syncs);
      ghost var p2 := RemovePlan(disk.files, SlotDigest(o), faults,
                                 if SlotPayload(o) in disk.files then syncs + 1 else syncs);
      out := RemoveAndSync(SlotPayload(o));
      if !out.Acked? { CutShort(before, allowed, p1, p2, out); return; }
      ghost var mid, left := disk, budget;
      out := RemoveAndSync(SlotDigest(o));
      Sequence(before, allowed, p1, mid, left, p2, out);
    }

    method NoteAndClear(o: nat, e: Digest) returns (out: Outcome)
      modifies this
      ensures Performed(old(disk), old(budget), NotePlan(old(disk).files, o, e, faults, old(syncs)), out)
      ensures out.Acked? ==> syncs == old(syncs) + 1 + (if SlotPayload(o) in old(disk).files then 1 else 0)
                                               + (if SlotDigest(o) in old(disk).files then 1 else 0)
    {
      ghost var before, allowed := disk, budget;
      ghost var p1 := PublishPlan(disk.files, ArchiveDigest(o, e), DigestLine(e), Synced(faults, syncs));
      ghost var p2 := ClearPlan(disk.files, o, faults, syncs + 1);
      PublishIsAtomic(before, ArchiveDigest(o, e), DigestLine(e), f => true);
      out := PublishImmutable(ArchiveDigest(o, e), DigestLine(e));
      if !out.Acked? { CutShort(before, allowed, p1, p2, out); return; }
      ghost var mid, left := disk, budget;
      assert p2 == ClearPlan(mid.files, o, faults, syncs);
      out := ClearSlot(o);
      Sequence(before, allowed, p1, mid, left, p2, out);
    }

    // archiveQuarantinedReviewerArtifact
    method ArchiveRejected(q: Quarantine, o: nat) returns (out: Outcome)
      requires syncs == 0
      modifies this
      ensures Performed(old(disk), old(budget), ArchivePlan(old(disk).files, q, o, faults), out)
      ensures out.Acked? ==> syncs == ArchiveSyncs(old(disk).files, q, o)
    {
      ghost var before, allowed, files := disk, budget, disk.files;
      assert Run(before, []) == before;
      match Classify(disk.files, q, o) {
        case Empty => return Acked;
        case Kept => return Acked;
        case Broken(error) => return Failed(error);
        case Rejected(e) =>
          var sp, ap := SlotPayload(o), ArchivePayload(o, e);
          ghost var p1 := ArchivePayloadPlan(files, o, e, faults);
          ghost var p2 := NotePlan(files, o, e, faults, if sp in files then 1 else 0);
          if sp in disk.files {
            PublishIsAtomic(before, ap, files[sp], f => true);
            out := PublishImmutable(ap, disk.files[sp]);
          } else {
            out := if ap in disk.files && SizeOf(disk.files[ap]) <= RESULT_LIMIT && Sha256(disk.files[ap]) == e
                   then Acked else Failed(ArchiveIncomplete);
          }
          if !out.Acked? { CutShort(before, allowed, p1, p2, out); return; }
          ghost var mid, left := disk, budget;
          SameNotePlan(files, mid.files, o, e, faults, syncs);
          assert p2 == NotePlan(mid.files, o, e, faults, syncs);
          out := NoteAndClear(o, e);
          Sequence(before, allowed, p1, mid, left, p2, out);
      }
    }

    // persistReviewerArtifactDigest
    method RecordDigest(o: nat, digest: Digest) returns (out: Outcome)
      modifies this
      ensures Performed(old(disk), old(budget), RecordPlan(old(disk).files, o, digest, Synced(faults, old(syncs))), out)
    {
      var sd := SlotDigest(o);
      assert Run(disk, []) == disk;
      if sd in disk.files {
        return if disk.files[sd] == DigestLine(digest) then Acked else Failed(DigestConflict);
      }
      var alive := PublishFile(sd, DigestLine(digest));
      if !alive { return Crashed; }
      out := SyncDirectory();
    }

    // captureReviewerArtifact, after its archive step
    method StorePayload(o: nat, c: Content) returns (out: Outcome)
      modifies this
      ensures Performed(old(disk), old(budget), StorePlan(old(disk).files, o, c, faults, old(syncs)), out)
    {
      var sp := SlotPayload(o);
      ghost var before, allowed := disk, budget;
      assert Run(before, []) == before;
      if sp in disk.files {
        if SizeOf(disk.files[sp]) > RESULT_LIMIT { return Failed(TooLarge); }
        if Sha256(disk.files[sp]) != Sha256(c) { return Failed(SlotConflict); }
        out := RecordDigest(o, Sha256(c));
        return;
      }
      ghost var n := syncs;
      ghost var publish := PublishOps(before.files, sp, c);
      ghost var record := RecordPlan(before.files, o, Sha256(c), Synced(faults, n + 1));
      ghost var removal := Plan([Remove(sp)], Synced(faults, n));
      var alive := PublishFile(sp, c);
      if !alive {
        assert Cut(publish + [Remove(sp)], allowed) == Cut(publish, allowed);
        assert Cut(publish + record.ops, allowed) == Cut(publish, allowed);
        return Crashed;
      }
      PublishIsAtomic(before, sp, c, f => true);
      ghost var d1, b1 := disk, budget;
      var synced := SyncDirectory();
      if synced.Failed? || SizeOf(disk.files[sp]) > RESULT_LIMIT {
        assert [Remove(sp)][..0] == [] && Run(d1, []) == d1;
        alive := Perform(Remove(sp));
        ghost var cut := Cut([Remove(sp)], b1);
        if alive {
          Crash.StepAppends(Apply, d1, [Remove(sp)], 0);
          assert [Remove(sp)][..1] == [Remove(sp)] == cut;
        }
        RunConcat(before, publish, cut);
        assert Cut(publish + [Remove(sp)], allowed) == publish + cut;
        return if !alive then Crashed else if synced.Failed? then synced else Failed(TooLarge);
      }
      out := RecordDigest(o, Sha256(c));
      Sequence(before, allowed, Plan(publish, Acked), d1, b1, record, out);
    }

    /** Capturing performs the capture plan, up to the crash. What that guarantees at every crash point
        is proved about the plan: CaptureKeepsInvAtCrash, CaptureNeverOverwrites, CaptureConverges. */
    method CaptureResult(q: Quarantine, o: nat, c: Content) returns (out: Outcome)
      requires syncs == 0
      requires Inv(disk.files, q)
      modifies this
      ensures Performed(old(disk), old(budget), CapturePlan(old(disk), q, o, c, faults), out)
      ensures Inv(disk.files, q) && SlotHistory(old(disk).files, disk.files, o, c)
      ensures out.Acked? ==> Admits(old(disk).files, q, o, c) && disk.files == Captured(old(disk).files, q, o, c)
    {
      ghost var before, allowed := disk, budget;
      ghost var archive := ArchivePlan(disk.files, q, o, faults);
      ghost var store := StorePlan(Run(before, archive.ops).files, o, c, faults, ArchiveSyncs(before.files, q, o));
      CaptureKeepsInvAtCrash(before, q, o, c, faults, allowed);
      CaptureNeverOverwrites(before, q, o, c, faults, allowed);
      CaptureAckedIffAdmits(before, q, o, c, faults);
      out := ArchiveRejected(q, o);
      if !out.Acked? { CutShort(before, allowed, archive, store, out); return; }
      ghost var d1, b1 := disk, budget;
      out := StorePayload(o, c);
      Sequence(before, allowed, archive, d1, b1, store, out);
    }

    // A plan that stops before its second part leaves the sequence where it stopped.
    ghost method CutShort(before: Disk, allowed: nat, first: Plan, second: Plan, out: Outcome)
      requires Performed(before, allowed, first, out) && !out.Acked?
      ensures Performed(before, allowed, Then(first, second), out)
    {
      if first.outcome.Acked? {
        assert Cut(first.ops + second.ops, allowed) == Cut(first.ops, allowed);
      }
    }
  }

  // What is left to do after publishing the archive payload does not depend on that publication.
  lemma SameNotePlan(files: Files, after: Files, o: nat, e: Digest, faults: seq<bool>, i: nat)
    requires after == files || (SlotPayload(o) in files && after == files[ArchivePayload(o, e) := files[SlotPayload(o)]])
    ensures NotePlan(files, o, e, faults, i) == NotePlan(after, o, e, faults, i)
  {
  }
}
