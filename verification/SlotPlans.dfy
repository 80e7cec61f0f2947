/**
 Capturing and archiving reviewer results, as lists of file steps.

 A plan is what one call would do if nothing stopped it: the steps it issues from a given
 directory, and what it reports. The plans follow the code's own order of checks and steps; the
 modules SlotSafety and SlotRuns prove what holds at every crash point of every run of them.
 */
module SlotPlans {
  import opened SlotDisk

  // The digests the authority has rejected, by slot.
  type Quarantine = set<(nat, Digest)>

  datatype Error =
    | TooLarge | DigestDiffers | NoValidDigest | ArchiveIncomplete | ArchiveConflict
    | SyncFailed | SlotConflict | DigestConflict

  datatype Outcome = Acked | Failed(error: Error) | Crashed

  datatype Plan = Plan(ops: seq<FileOp>, outcome: Outcome)

  function Then(first: Plan, second: Plan): Plan {
    if first.outcome.Acked? then Plan(first.ops + second.ops, second.outcome) else first
  }

  // The i-th directory sync of a call fails when the fault list says so.
  function Synced(faults: seq<bool>, i: nat): Outcome {
    if i < |faults| && faults[i] then Failed(SyncFailed) else Acked
  }

  predicate FaultFree(faults: seq<bool>) {
    forall i :: 0 <= i < |faults| ==> !faults[i]
  }

  predicate IsSpace(b: bv8) {
    b == 9 || b == 10 || b == 11 || b == 12 || b == 13 || b == 32
  }

  predicate Blank(c: Content) {
    c.Raw? && forall i :: 0 <= i < |c.bytes| ==> IsSpace(c.bytes[i])
  }

  // What the archive step makes of a slot before it touches anything.
  datatype Slot = Empty | Broken(error: Error) | Kept | Rejected(digest: Digest)

  function Classify(files: Files, q: Quarantine, o: nat): Slot {
    var sp, sd := SlotPayload(o), SlotDigest(o);
    if sp in files && SizeOf(files[sp]) > RESULT_LIMIT then Broken(TooLarge)
    else if sd in files && SizeOf(files[sd]) > DIGEST_LIMIT then Broken(TooLarge)
    else if sp !in files && sd !in files then Empty
    else if sp in files then
      var actual := Sha256(files[sp]);
      if sd in files && !Blank(files[sd]) && files[sd] != DigestLine(actual) then Broken(DigestDiffers)
      else if (o, actual) in q then Rejected(actual) else Kept
    else if files[sd].DigestLine? then
      if (o, files[sd].digest) in q then Rejected(files[sd].digest) else Kept
    else Broken(NoValidDigest)
  }

  // Publishing an immutable file accepts an existing one with the same bytes and nothing else.
  function PublishPlan(files: Files, p: Path, c: Content, synced: Outcome): Plan {
    Plan(PublishOps(files, p, c), if p in files && files[p] != c then Failed(ArchiveConflict) else synced)
  }

  function ArchivePayloadPlan(files: Files, o: nat, e: Digest, faults: seq<bool>): Plan {
    var sp, ap := SlotPayload(o), ArchivePayload(o, e);
    if sp in files then PublishPlan(files, ap, files[sp], Synced(faults, 0))
    else if ap in files && SizeOf(files[ap]) <= RESULT_LIMIT && Sha256(files[ap]) == e then Plan([], Acked)
    else Plan([], Failed(ArchiveIncomplete))
  }

  // Remove a slot file, if it is there, and sync; `i` is the number of the sync.
  function RemovePlan(files: Files, p: Path, faults: seq<bool>, i: nat): Plan {
    if p in files then Plan([Remove(p)], Synced(faults, i)) else Plan([], Acked)
  }

  function ClearPlan(files: Files, o: nat, faults: seq<bool>, i: nat): Plan {
    Then(RemovePlan(files, SlotPayload(o), faults, i),
         RemovePlan(files, SlotDigest(o), faults, if SlotPayload(o) in files then i + 1 else i))
  }

  function NotePlan(files: Files, o: nat, e: Digest, faults: seq<bool>, i: nat): Plan {
    Then(PublishPlan(files, ArchiveDigest(o, e), DigestLine(e), Synced(faults, i)),
         ClearPlan(files, o, faults, i + 1))
  }

  function ArchiveRejectedPlan(files: Files, o: nat, e: Digest, faults: seq<bool>): Plan {
    Then(ArchivePayloadPlan(files, o, e, faults),
         NotePlan(files, o, e, faults, if SlotPayload(o) in files then 1 else 0))
  }

  function ArchivePlan(files: Files, q: Quarantine, o: nat, faults: seq<bool>): Plan {
    match Classify(files, q, o)
    case Empty => Plan([], Acked)
    case Kept => Plan([], Acked)
    case Broken(error) => Plan([], Failed(error))
    case Rejected(e) => ArchiveRejectedPlan(files, o, e, faults)
  }

  // Directory syncs an acknowledged archive step has used up.
  function ArchiveSyncs(files: Files, q: Quarantine, o: nat): nat {
    if !Classify(files, q, o).Rejected? then 0
    else (if SlotPayload(o) in files then 3 else 1) + (if SlotDigest(o) in files then 1 else 0)
  }

  function RecordPlan(files: Files, o: nat, digest: Digest, synced: Outcome): Plan {
    var sd := SlotDigest(o);
    if sd in files then
      Plan([], if files[sd] == DigestLine(digest) then Acked else Failed(DigestConflict))
    else Plan(PublishOps(files, sd, DigestLine(digest)), synced)
  }

  function StorePlan(files: Files, o: nat, c: Content, faults: seq<bool>, n: nat): Plan {
    var sp := SlotPayload(o);
    if sp in files then
      if SizeOf(files[sp]) > RESULT_LIMIT then Plan([], Failed(TooLarge))
      else if Sha256(files[sp]) != Sha256(c) then Plan([], Failed(SlotConflict))
      else RecordPlan(files, o, Sha256(c), Synced(faults, n))
    else
      var publish := PublishOps(files, sp, c);
      if Synced(faults, n).Failed? then Plan(publish + [Remove(sp)], Synced(faults, n))
      else if SizeOf(c) > RESULT_LIMIT then Plan(publish + [Remove(sp)], Failed(TooLarge))
      else Then(Plan(publish, Acked), RecordPlan(files, o, Sha256(c), Synced(faults, n + 1)))
  }

  function CapturePlan(d: Disk, q: Quarantine, o: nat, c: Content, faults: seq<bool>): Plan {
    var archive := ArchivePlan(d.files, q, o, faults);
    Then(archive, StorePlan(Run(d, archive.ops).files, o, c, faults, ArchiveSyncs(d.files, q, o)))
  }

  // What archiving a slot is meant to achieve, whatever part of it already happened.
  function Settle(files: Files, q: Quarantine, o: nat): Files {
    match Classify(files, q, o)
    case Rejected(e) =>
      var kept := if SlotPayload(o) in files then files[ArchivePayload(o, e) := files[SlotPayload(o)]] else files;
      kept[ArchiveDigest(o, e) := DigestLine(e)] - {SlotPayload(o), SlotDigest(o)}
    case _ => files
  }

  // What capturing `c` is meant to achieve.
  function Captured(files: Files, q: Quarantine, o: nat, c: Content): Files {
    Settle(files, q, o)[SlotPayload(o) := c][SlotDigest(o) := DigestLine(Sha256(c))]
  }

  // A capture of `c` is admissible when, once rejected bytes are out of the way, the slot holds
  // nothing else.
  predicate Admits(files: Files, q: Quarantine, o: nat, c: Content) {
    SizeOf(c) <= RESULT_LIMIT &&
    (SlotPayload(o) in Settle(files, q, o) ==> Settle(files, q, o)[SlotPayload(o)] == c)
  }

  ghost predicate Archived(files: Files, o: nat, e: Digest) {
    ArchivePayload(o, e) in files && ArchiveDigest(o, e) in files
  }

  ghost predicate DigestBacked(files: Files, q: Quarantine, o: nat) {
    SlotDigest(o) in files ==>
      if SlotPayload(o) in files then
        files[SlotDigest(o)] == DigestLine(Sha256(files[SlotPayload(o)])) && SizeOf(files[SlotPayload(o)]) <= RESULT_LIMIT
      else
        files[SlotDigest(o)].DigestLine? &&
        (o, files[SlotDigest(o)].digest) in q && Archived(files, o, files[SlotDigest(o)].digest)
  }

  ghost predicate ArchiveTrue(files: Files, o: nat, e: Digest) {
    && (ArchivePayload(o, e) in files ==>
          Sha256(files[ArchivePayload(o, e)]) == e && SizeOf(files[ArchivePayload(o, e)]) <= RESULT_LIMIT)
    && (ArchiveDigest(o, e) in files ==>
          files[ArchiveDigest(o, e)] == DigestLine(e) && ArchivePayload(o, e) in files)
  }

  // The bytes whose digest is `e` are in the slot, or the archive holds them with their digest.
  ghost predicate Held(files: Files, o: nat, e: Digest) {
    || (SlotPayload(o) in files && Sha256(files[SlotPayload(o)]) == e)
    || (Archived(files, o, e) && Sha256(files[ArchivePayload(o, e)]) == e)
  }

  /** The slot invariant: a digest file vouches for the payload beside it, or for rejected bytes that
      the archive already holds in full; archives hold what their names say; no rejected bytes are lost. */
  ghost predicate Inv(files: Files, q: Quarantine) {
    && (forall o :: DigestBacked(files, q, o))
    && (forall o, e :: ArchiveTrue(files, o, e))
    && (forall o, e :: (o, e) in q ==> Held(files, o, e))
  }
}
