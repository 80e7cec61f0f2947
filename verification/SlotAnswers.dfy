/**
 What archiving and capturing come to, said of the directory before, the rejected digests and the directory
 after, and of nothing in between.
 */
module SlotAnswers {
  import Crash
  import opened SlotDisk
  import opened SlotPlans
  import opened SlotSafety

  // The bytes in the slot are bytes the authority rejected there.
  predicate PayloadRejected(files: Files, q: Quarantine, o: nat) {
    SlotPayload(o) in files && (o, Sha256(files[SlotPayload(o)])) in q
  }

  // Apart from the two slot files and the two archive files for `e`, nothing changed.
  ghost predicate OthersSame(files: Files, after: Files, o: nat, e: Digest) {
    forall p :: p != SlotPayload(o) && p != SlotDigest(o) && p != ArchivePayload(o, e) && p != ArchiveDigest(o, e) ==>
      (p in after <==> p in files) && (p in files ==> after[p] == files[p])
  }

  /** Rejected bytes: an acknowledged archive step leaves the slot empty, and the archive with those bytes and
      their digest. Without failing syncs it is acknowledged. */
  lemma RejectedBytesAreArchived(d: Disk, q: Quarantine, o: nat, faults: seq<bool>)
    requires Inv(d.files, q) && PayloadRejected(d.files, q, o) && SizeOf(d.files[SlotPayload(o)]) <= RESULT_LIMIT
    ensures var plan, e := ArchivePlan(d.files, q, o, faults), Sha256(d.files[SlotPayload(o)]);
            var after := Run(d, plan.ops).files;
            && (FaultFree(faults) ==> plan.outcome.Acked?)
            && (plan.outcome.Acked? ==>
                  && SlotPayload(o) !in after && SlotDigest(o) !in after
                  && ArchivePayload(o, e) in after && after[ArchivePayload(o, e)] == d.files[SlotPayload(o)]
                  && ArchiveDigest(o, e) in after && after[ArchiveDigest(o, e)] == DigestLine(e)
                  && OthersSame(d.files, after, o, e))
  {
    var e := Sha256(d.files[SlotPayload(o)]);
    assert DigestBacked(d.files, q, o);
    ArchiveShowsStagesOnly(d, q, o, e, faults, f => true);
  }

  /** A digest left alone in the slot: an acknowledged archive step removes it, and the archive still holds the
      bytes it names, with their digest. */
  lemma LoneDigestIsCleared(d: Disk, q: Quarantine, o: nat, faults: seq<bool>)
    requires Inv(d.files, q) && SlotPayload(o) !in d.files && SlotDigest(o) in d.files
    ensures d.files[SlotDigest(o)].DigestLine?
    ensures var plan, e := ArchivePlan(d.files, q, o, faults), d.files[SlotDigest(o)].digest;
            var after := Run(d, plan.ops).files;
            && (FaultFree(faults) ==> plan.outcome.Acked?)
            && (plan.outcome.Acked? ==>
                  && SlotPayload(o) !in after && SlotDigest(o) !in after
                  && ArchivePayload(o, e) in after && Sha256(after[ArchivePayload(o, e)]) == e
                  && ArchiveDigest(o, e) in after && after[ArchiveDigest(o, e)] == DigestLine(e)
                  && OthersSame(d.files, after, o, e))
  {
    assert DigestBacked(d.files, q, o);
    var e := d.files[SlotDigest(o)].digest;
    assert ArchiveTrue(d.files, o, e);
    ArchiveShowsStagesOnly(d, q, o, e, faults, f => true);
  }

  /** A slot that is empty, or whose bytes are not rejected, is left alone, and so is everything else. It is
      acknowledged unless the bytes are over the limit. */
  lemma OtherSlotsAreLeftAlone(d: Disk, q: Quarantine, o: nat, faults: seq<bool>)
    requires Inv(d.files, q)
    requires if SlotPayload(o) in d.files then !PayloadRejected(d.files, q, o) else SlotDigest(o) !in d.files
    ensures var plan := ArchivePlan(d.files, q, o, faults);
            && Run(d, plan.ops).files == d.files
            && plan.outcome == if SlotPayload(o) in d.files && SizeOf(d.files[SlotPayload(o)]) > RESULT_LIMIT
                               then Failed(TooLarge) else Acked
  {
    assert DigestBacked(d.files, q, o);
    assert Run(d, []) == d;
  }

  // What a capture without failing syncs answers.
  function Answer(files: Files, q: Quarantine, o: nat, c: Content): Outcome {
    var sp := SlotPayload(o);
    if sp in files && SizeOf(files[sp]) > RESULT_LIMIT then Failed(TooLarge)
    else if sp in files && (o, Sha256(files[sp])) !in q then
      if files[sp] == c then Acked else Failed(SlotConflict)
    else if SizeOf(c) > RESULT_LIMIT then Failed(TooLarge)
    else Acked
  }

  /** Exactly when a capture is acknowledged, and what else it answers: bytes in the slot that are over the
      limit are in the way for good; bytes that are not rejected must be the same; otherwise the new bytes
      have to be within the limit. */
  lemma CaptureAnswers(d: Disk, q: Quarantine, o: nat, c: Content, faults: seq<bool>)
    requires Inv(d.files, q) && FaultFree(faults)
    ensures CapturePlan(d, q, o, c, faults).outcome == Answer(d.files, q, o, c)
    ensures CapturePlan(d, q, o, c, faults).outcome.Acked? <==>
              && SizeOf(c) <= RESULT_LIMIT
              && (SlotPayload(o) in d.files ==>
                    SizeOf(d.files[SlotPayload(o)]) <= RESULT_LIMIT &&
                    (PayloadRejected(d.files, q, o) || d.files[SlotPayload(o)] == c))
  {
    hide Run;
    CaptureStages(d, q, o, c, faults);
    var s := Run(d, ArchivePlan(d.files, q, o, faults).ops).files;
    assert !Synced(faults, ArchiveSyncs(d.files, q, o)).Failed? && !Synced(faults, ArchiveSyncs(d.files, q, o) + 1).Failed?;
  }

  // The slot as the archive step leaves it, when that is acknowledged.
  lemma CaptureStages(d: Disk, q: Quarantine, o: nat, c: Content, faults: seq<bool>)
    requires Inv(d.files, q) && FaultFree(faults)
    ensures var plan := ArchivePlan(d.files, q, o, faults);
            var s := Run(d, plan.ops).files;
            && (plan.outcome == if SlotPayload(o) in d.files && SizeOf(d.files[SlotPayload(o)]) > RESULT_LIMIT
                                then Failed(TooLarge) else Acked)
            && (plan.outcome.Acked? ==>
                  if SlotPayload(o) in d.files && !PayloadRejected(d.files, q, o) then s == d.files
                  else SlotPayload(o) !in s && SlotDigest(o) !in s)
            && DigestBacked(d.files, q, o)
  {
    hide ArchivePlan, Run;
    assert DigestBacked(d.files, q, o);
    if SlotPayload(o) in d.files && PayloadRejected(d.files, q, o) && SizeOf(d.files[SlotPayload(o)]) <= RESULT_LIMIT {
      RejectedBytesAreArchived(d, q, o, faults);
    } else if SlotPayload(o) in d.files && PayloadRejected(d.files, q, o) {
      OversizedIsBroken(d, q, o, faults);
    } else if SlotPayload(o) !in d.files && SlotDigest(o) in d.files {
      LoneDigestIsCleared(d, q, o, faults);
    } else {
      OtherSlotsAreLeftAlone(d, q, o, faults);
    }
  }

  lemma OversizedIsBroken(d: Disk, q: Quarantine, o: nat, faults: seq<bool>)
    requires SlotPayload(o) in d.files && SizeOf(d.files[SlotPayload(o)]) > RESULT_LIMIT
    ensures ArchivePlan(d.files, q, o, faults).outcome == Failed(TooLarge)
  {
  }

  /** What an acknowledged capture leaves, whether or not a sync failed before: the slot with exactly the new
      bytes and their digest; bytes that were rejected, in the archive with theirs; and nothing else changed. */
  lemma CaptureLeaves(d: Disk, q: Quarantine, o: nat, c: Content, faults: seq<bool>)
    requires Inv(d.files, q) && CapturePlan(d, q, o, c, faults).outcome.Acked?
    ensures var after := Run(d, CapturePlan(d, q, o, c, faults).ops).files;
            && SlotPayload(o) in after && after[SlotPayload(o)] == c
            && SlotDigest(o) in after && after[SlotDigest(o)] == DigestLine(Sha256(c))
            && (PayloadRejected(d.files, q, o) ==>
                  var e := Sha256(d.files[SlotPayload(o)]);
                  && ArchivePayload(o, e) in after && after[ArchivePayload(o, e)] == d.files[SlotPayload(o)]
                  && ArchiveDigest(o, e) in after && after[ArchiveDigest(o, e)] == DigestLine(e)
                  && OthersSame(d.files, after, o, e))
            && (SlotPayload(o) in d.files && !PayloadRejected(d.files, q, o) ==> d.files[SlotPayload(o)] == c)
            && (!PayloadRejected(d.files, q, o) ==>
                  forall p :: p != SlotPayload(o) && p != SlotDigest(o) ==>
                    (p in after <==> p in d.files) && (p in d.files ==> after[p] == d.files[p]))
  {
    CaptureAckedIffAdmits(d, q, o, c, faults);
    assert DigestBacked(d.files, q, o);
    if SlotDigest(o) in d.files { assert ArchiveTrue(d.files, o, d.files[SlotDigest(o)].digest); }
  }

  // ----- temporary files -----

  predicate Fresh(d: Disk) {
    forall t :: t in d.temps ==> t < d.nextTemp
  }

  // The steps leave no temporary file behind, and no path but these comes or goes.
  ghost predicate Tidy(d: Disk, ops: seq<FileOp>, paths: set<Path>) {
    && Fresh(Run(d, ops)) && Run(d, ops).temps == d.temps
    && forall x :: x !in paths ==> (x in Run(d, ops).files <==> x in d.files)
  }

  lemma ThenIsTidy(d: Disk, first: Plan, second: Plan, x: set<Path>, y: set<Path>)
    requires Tidy(d, first.ops, x)
    requires first.outcome.Acked? ==> Tidy(Run(d, first.ops), second.ops, y)
    ensures Tidy(d, Then(first, second).ops, x + y)
  {
    RunConcat(d, first.ops, second.ops);
  }

  lemma PublishIsTidy(d: Disk, files: Files, p: Path, c: Content)
    requires Fresh(d) && (p in files <==> p in d.files)
    ensures Tidy(d, PublishOps(files, p, c), {p})
  {
    var ops := PublishOps(files, p, c);
    Crash.AlwaysByStages(Apply, d, ops, _ => true,
                         [d, Apply(d, ops[0]), Apply(Apply(d, ops[0]), ops[1]), Apply(Apply(Apply(d, ops[0]), ops[1]), ops[2])]);
  }

  lemma RemoveIsTidy(d: Disk, p: Path)
    requires Fresh(d)
    ensures Tidy(d, [Remove(p)], {p}) && Tidy(d, [], {p})
  {
    Crash.AlwaysByStages(Apply, d, [Remove(p)], _ => true, [d, Apply(d, Remove(p))]);
    assert Run(d, []) == d;
  }

  lemma ClearIsTidy(d: Disk, files: Files, o: nat, faults: seq<bool>, i: nat)
    requires Fresh(d)
    ensures Tidy(d, ClearPlan(files, o, faults, i).ops, {SlotPayload(o)} + {SlotDigest(o)})
  {
    var first := RemovePlan(files, SlotPayload(o), faults, i);
    RemoveIsTidy(d, SlotPayload(o));
    RemoveIsTidy(Run(d, first.ops), SlotDigest(o));
    ThenIsTidy(d, first, RemovePlan(files, SlotDigest(o), faults, if SlotPayload(o) in files then i + 1 else i),
               {SlotPayload(o)}, {SlotDigest(o)});
  }

  lemma NoteIsTidy(d: Disk, files: Files, o: nat, e: Digest, faults: seq<bool>, i: nat)
    requires Fresh(d) && (ArchiveDigest(o, e) in files <==> ArchiveDigest(o, e) in d.files)
    ensures Tidy(d, NotePlan(files, o, e, faults, i).ops, {ArchiveDigest(o, e)} + ({SlotPayload(o)} + {SlotDigest(o)}))
  {
    hide Run;
    var first := PublishPlan(files, ArchiveDigest(o, e), DigestLine(e), Synced(faults, i));
    PublishIsTidy(d, files, ArchiveDigest(o, e), DigestLine(e));
    ClearIsTidy(Run(d, first.ops), files, o, faults, i + 1);
    ThenIsTidy(d, first, ClearPlan(files, o, faults, i + 1), {ArchiveDigest(o, e)}, {SlotPayload(o)} + {SlotDigest(o)});
  }

  lemma RecordIsTidy(d: Disk, files: Files, o: nat, digest: Digest, synced: Outcome)
    requires Fresh(d) && (SlotDigest(o) in files <==> SlotDigest(o) in d.files)
    ensures Tidy(d, RecordPlan(files, o, digest, synced).ops, {SlotDigest(o)})
  {
    PublishIsTidy(d, files, SlotDigest(o), DigestLine(digest));
    RemoveIsTidy(d, SlotDigest(o));
  }

  lemma {:induction false} ArchiveIsTidy(d: Disk, q: Quarantine, o: nat, faults: seq<bool>)
    requires Fresh(d)
    ensures Fresh(Run(d, ArchivePlan(d.files, q, o, faults).ops)) && Run(d, ArchivePlan(d.files, q, o, faults).ops).temps == d.temps
  {
    hide Run;
    RemoveIsTidy(d, SlotPayload(o));
    match Classify(d.files, q, o) {
      case Rejected(e) =>
        var first := ArchivePayloadPlan(d.files, o, e, faults);
        var i := if SlotPayload(o) in d.files then 1 else 0;
        RemoveIsTidy(d, ArchivePayload(o, e));
        if SlotPayload(o) in d.files { PublishIsTidy(d, d.files, ArchivePayload(o, e), d.files[SlotPayload(o)]); }
        assert Tidy(d, first.ops, {ArchivePayload(o, e)});
        NoteIsTidy(Run(d, first.ops), d.files, o, e, faults, i);
        ThenIsTidy(d, first, NotePlan(d.files, o, e, faults, i), {ArchivePayload(o, e)},
                   {ArchiveDigest(o, e)} + ({SlotPayload(o)} + {SlotDigest(o)}));
      case _ =>
    }
  }

  lemma {:induction false} StoreIsTidy(d: Disk, o: nat, c: Content, faults: seq<bool>, n: nat)
    requires Fresh(d)
    ensures Tidy(d, StorePlan(d.files, o, c, faults, n).ops, {SlotPayload(o)} + {SlotDigest(o)})
  {
    hide Run;
    var sp := SlotPayload(o);
    RemoveIsTidy(d, sp);
    RecordIsTidy(d, d.files, o, Sha256(c), Synced(faults, n));
    if sp !in d.files {
      var first := Plan(PublishOps(d.files, sp, c), Acked);
      PublishIsTidy(d, d.files, sp, c);
      var after := Run(d, first.ops);
      RemoveIsTidy(after, sp);
      RecordIsTidy(after, d.files, o, Sha256(c), Synced(faults, n + 1));
      ThenIsTidy(d, first, Plan([Remove(sp)], Acked), {sp}, {sp});
      ThenIsTidy(d, first, RecordPlan(d.files, o, Sha256(c), Synced(faults, n + 1)), {sp}, {SlotDigest(o)});
    }
  }

  /** A capture that is not cut off leaves no temporary file behind, whatever it answers. */
  lemma {:induction false} NothingIsLeftOver(d: Disk, q: Quarantine, o: nat, c: Content, faults: seq<bool>)
    requires Fresh(d)
    ensures Run(d, CapturePlan(d, q, o, c, faults).ops).temps == d.temps
  {
    hide Run, StorePlan, ArchivePlan;
    var archive := ArchivePlan(d.files, q, o, faults);
    var settled := Run(d, archive.ops);
    var store := StorePlan(settled.files, o, c, faults, ArchiveSyncs(d.files, q, o));
    ArchiveIsTidy(d, q, o, faults);
    StoreIsTidy(settled, o, c, faults, ArchiveSyncs(d.files, q, o));
    RunConcat(d, archive.ops, store.ops);
  }
}
