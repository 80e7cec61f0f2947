/**
 What holds at every crash point of one archive or capture call.
 */
module SlotSafety {
  import opened SlotDisk
  import opened SlotPlans

  // The directory after each completed part of archiving: archive payload, archive digest, slot
  // payload gone, slot digest gone.
  function ArchiveStage(files: Files, o: nat, e: Digest, j: nat): Files {
    var s1 := if SlotPayload(o) in files then files[ArchivePayload(o, e) := files[SlotPayload(o)]] else files;
    var s2 := s1[ArchiveDigest(o, e) := DigestLine(e)];
    if j == 0 then files
    else if j == 1 then s1
    else if j == 2 then s2
    else if j == 3 then s2 - {SlotPayload(o)}
    else s2 - {SlotPayload(o)} - {SlotDigest(o)}
  }

  // A call that archives shows the outside world only the five stages, in that order of work.
  lemma ArchiveShowsStagesOnly(d: Disk, q: Quarantine, o: nat, e: Digest, faults: seq<bool>, P: Files -> bool)
    requires Inv(d.files, q) && Classify(d.files, q, o) == Rejected(e)
    requires forall j {:trigger ArchiveStage(d.files, o, e, j)} :: 0 <= j <= 4 ==> P(ArchiveStage(d.files, o, e, j))
    ensures Always(d, ArchivePlan(d.files, q, o, faults).ops, P)
    ensures ArchivePlan(d.files, q, o, faults).outcome.Acked? ==>
              Run(d, ArchivePlan(d.files, q, o, faults).ops).files == Settle(d.files, q, o)
    ensures FaultFree(faults) ==> ArchivePlan(d.files, q, o, faults).outcome.Acked?
  {
    var files := d.files;
    var sp, sd, ap, ad := SlotPayload(o), SlotDigest(o), ArchivePayload(o, e), ArchiveDigest(o, e);
    var n := if sp in files then 1 else 0;
    assert DigestBacked(files, q, o) && ArchiveTrue(files, o, e);
    var p1 := ArchivePayloadPlan(files, o, e, faults);
    var p2 := PublishPlan(files, ad, DigestLine(e), Synced(faults, n));
    var p3 := RemovePlan(files, sp, faults, n + 1);
    var p4 := RemovePlan(files, sd, faults, 2 * n + 1);
    assert ArchivePlan(files, q, o, faults) == Then(p1, Then(p2, Then(p3, p4)));
    var s0 := ArchiveStage(files, o, e, 0);
    var s1 := ArchiveStage(files, o, e, 1);
    var s2 := ArchiveStage(files, o, e, 2);
    var s3 := ArchiveStage(files, o, e, 3);
    var s4 := ArchiveStage(files, o, e, 4);
    assert P(s0) && P(s1) && P(s2) && P(s3) && P(s4);

    if sp in files {
      assert ap in files ==> files[ap] == files[sp] && files[ap := files[sp]] == files;
      PublishIsAtomic(d, ap, files[sp], P);
    }
    var d1 := Run(d, p1.ops);
    assert d1.files == s1;
    assert Always(d, p1.ops, P);

    assert PublishOps(d1.files, ad, DigestLine(e)) == p2.ops;
    assert ad in files ==> s2 == s1;
    PublishIsAtomic(d1, ad, DigestLine(e), P);
    var d2 := Run(d1, p2.ops);
    assert d2.files == s2;

    if sp in files {
      RemoveIsAtomic(d2, sp, P);
    } else {
      assert s3 == s2;
    }
    var d3 := Run(d2, p3.ops);
    assert d3.files == s3 && Always(d2, p3.ops, P);

    if sd in files {
      RemoveIsAtomic(d3, sd, P);
    } else {
      assert s4 == s3;
    }
    var d4 := Run(d3, p4.ops);
    assert d4.files == s4 && Always(d3, p4.ops, P);
    assert s4 == Settle(files, q, o);

    AlwaysConcat(d2, p3.ops, p4.ops, P);
    RunConcat(d2, p3.ops, p4.ops);
    var p34 := Then(p3, p4);
    assert Always(d2, p34.ops, P);
    AlwaysConcat(d1, p2.ops, p34.ops, P);
    RunConcat(d1, p2.ops, p34.ops);
    var p234 := Then(p2, p34);
    assert Always(d1, p234.ops, P);
    AlwaysConcat(d, p1.ops, p234.ops, P);
    RunConcat(d, p1.ops, p234.ops);
  }

  // Every stage of archiving keeps the slot invariant.
  lemma ArchiveStageKeepsInv(files: Files, q: Quarantine, o: nat, e: Digest, j: nat)
    requires Inv(files, q) && Classify(files, q, o) == Rejected(e)
    ensures Inv(ArchiveStage(files, o, e, j), q)
  {
    var s := ArchiveStage(files, o, e, j);
    assert DigestBacked(files, q, o) && ArchiveTrue(files, o, e) && Held(files, o, e);
    forall o' ensures DigestBacked(s, q, o') {
      assert DigestBacked(files, q, o');
    }
    forall o', e' ensures ArchiveTrue(s, o', e') {
      assert ArchiveTrue(files, o', e');
    }
    forall o', e' | (o', e') in q ensures Held(s, o', e') {
      assert Held(files, o', e');
    }
  }

  // What archiving is meant to achieve is not changed by having done part of it.
  lemma ArchiveStageKeepsGoal(files: Files, q: Quarantine, o: nat, e: Digest, j: nat)
    requires Inv(files, q) && Classify(files, q, o) == Rejected(e)
    ensures Settle(ArchiveStage(files, o, e, j), q, o) == Settle(files, q, o)
  {
    var s := ArchiveStage(files, o, e, j);
    assert DigestBacked(files, q, o) && ArchiveTrue(files, o, e);
    assert ArchiveStage(files, o, e, 4) == Settle(files, q, o);
    if j == 0 {
    } else if j <= 2 {
      assert Classify(s, q, o) == Rejected(e);
    } else if j == 3 {
      if SlotDigest(o) in files {
        assert Classify(s, q, o) == Rejected(e);
        assert Settle(s, q, o) == s[ArchiveDigest(o, e) := DigestLine(e)] - {SlotPayload(o), SlotDigest(o)};
      } else {
        assert s == ArchiveStage(files, o, e, 4);
      }
    } else {
      assert Classify(s, q, o) == Empty;
    }
  }

  lemma ArchiveAtCrash(d: Disk, q: Quarantine, o: nat, faults: seq<bool>, budget: nat)
    requires Inv(d.files, q)
    ensures var files' := Run(d, Cut(ArchivePlan(d.files, q, o, faults).ops, budget)).files;
            Inv(files', q) && Settle(files', q, o) == Settle(d.files, q, o)
  {
    var ops := ArchivePlan(d.files, q, o, faults).ops;
    match Classify(d.files, q, o) {
      case Rejected(e) =>
        var P: Files -> bool := f => Inv(f, q) && Settle(f, q, o) == Settle(d.files, q, o);
        forall j | 0 <= j <= 4 ensures P(ArchiveStage(d.files, o, e, j)) {
          ArchiveStageKeepsInv(d.files, q, o, e, j);
          ArchiveStageKeepsGoal(d.files, q, o, e, j);
        }
        ArchiveShowsStagesOnly(d, q, o, e, faults, P);
        AlwaysAtCrash(d, ops, P, budget);
      case _ =>
        assert Run(d, []) == d;
    }
  }

  // Storing into a settled slot shows the outside world: the slot as it was, the payload alone,
  // payload and digest.
  lemma StoreShowsStagesOnly(d: Disk, q: Quarantine, o: nat, c: Content, faults: seq<bool>, n: nat, P: Files -> bool)
    requires Inv(d.files, q) && (Classify(d.files, q, o) == Empty || Classify(d.files, q, o) == Kept)
    requires P(d.files)
    requires SlotPayload(o) !in d.files ==> P(d.files[SlotPayload(o) := c])
    requires Admits(d.files, q, o, c) ==> P(Captured(d.files, q, o, c))
    ensures Always(d, StorePlan(d.files, o, c, faults, n).ops, P)
    ensures StorePlan(d.files, o, c, faults, n).outcome.Acked? ==>
              Admits(d.files, q, o, c) &&
              Run(d, StorePlan(d.files, o, c, faults, n).ops).files == Captured(d.files, q, o, c)
    ensures FaultFree(faults) ==>
              (StorePlan(d.files, o, c, faults, n).outcome.Acked? <==> Admits(d.files, q, o, c))
  {
    var files := d.files;
    var sp, sd := SlotPayload(o), SlotDigest(o);
    var line := DigestLine(Sha256(c));
    assert DigestBacked(files, q, o);
    if sp in files {
      if SizeOf(files[sp]) <= RESULT_LIMIT && Sha256(files[sp]) == Sha256(c) {
        assert files[sp] == c && Admits(files, q, o, c);
        assert files[sp := c] == files;
        if sd in files {
          assert files[sd := line] == files;
          assert Run(d, []) == d;
        } else {
          PublishIsAtomic(d, sd, line, P);
        }
      }
    } else {
      assert sd !in files;
      PublishIsAtomic(d, sp, c, P);
      var d1 := Run(d, PublishOps(files, sp, c));
      if Synced(faults, n).Failed? || SizeOf(c) > RESULT_LIMIT {
        assert d1.files - {sp} == files;
        RemoveIsAtomic(d1, sp, P);
        AlwaysConcat(d, PublishOps(files, sp, c), [Remove(sp)], P);
      } else {
        assert PublishOps(d1.files, sd, line) == PublishOps(files, sd, line);
        PublishIsAtomic(d1, sd, line, P);
        AlwaysConcat(d, PublishOps(files, sp, c), PublishOps(files, sd, line), P);
        RunConcat(d, PublishOps(files, sp, c), PublishOps(files, sd, line));
      }
    }
  }

  // A capture shows only the archive stages, then the store stages.
  lemma CaptureShowsStagesOnly(d: Disk, q: Quarantine, o: nat, c: Content, faults: seq<bool>, P: Files -> bool)
    requires Inv(d.files, q)
    requires P(d.files)
    requires Classify(d.files, q, o).Rejected? ==>
               forall j {:trigger ArchiveStage(d.files, o, Classify(d.files, q, o).digest, j)} ::
                 0 <= j <= 4 ==> P(ArchiveStage(d.files, o, Classify(d.files, q, o).digest, j))
    requires SlotPayload(o) !in Settle(d.files, q, o) ==> P(Settle(d.files, q, o)[SlotPayload(o) := c])
    requires Admits(d.files, q, o, c) ==> P(Captured(d.files, q, o, c))
    ensures Always(d, CapturePlan(d, q, o, c, faults).ops, P)
    ensures CapturePlan(d, q, o, c, faults).outcome.Acked? ==>
              Admits(d.files, q, o, c) && Run(d, CapturePlan(d, q, o, c, faults).ops).files == Captured(d.files, q, o, c)
    ensures FaultFree(faults) ==>
              (CapturePlan(d, q, o, c, faults).outcome.Acked? <==> Admits(d.files, q, o, c))
  {
    var files := d.files;
    var archive := ArchivePlan(files, q, o, faults);
    assert DigestBacked(files, q, o);
    match Classify(files, q, o) {
      case Broken(error) =>
        assert !Admits(files, q, o, c);
      case Rejected(e) =>
        ArchiveShowsStagesOnly(d, q, o, e, faults, P);
        if archive.outcome.Acked? {
          ArchiveStageKeepsInv(files, q, o, e, 4);
          assert ArchiveStage(files, o, e, 4) == Settle(files, q, o);
          var d1 := Run(d, archive.ops);
          assert Classify(d1.files, q, o) == Empty;
          StoreShowsStagesOnly(d1, q, o, c, faults, ArchiveSyncs(files, q, o), P);
          var store := StorePlan(d1.files, o, c, faults, ArchiveSyncs(files, q, o));
          AlwaysConcat(d, archive.ops, store.ops, P);
          RunConcat(d, archive.ops, store.ops);
        }
      case _ =>
        StoreShowsStagesOnly(d, q, o, c, faults, 0, P);
        var store := StorePlan(files, o, c, faults, 0);
        assert Run(d, []) == d;
        assert archive.ops + store.ops == store.ops;
    }
  }

  lemma PublishedPayloadKeepsInv(s: Files, q: Quarantine, o: nat, c: Content)
    requires Inv(s, q) && SlotPayload(o) !in s && SlotDigest(o) !in s
    ensures Inv(s[SlotPayload(o) := c], q)
  {
    var t := s[SlotPayload(o) := c];
    forall o' ensures DigestBacked(t, q, o') { assert DigestBacked(s, q, o'); }
    forall o', e' ensures ArchiveTrue(t, o', e') { assert ArchiveTrue(s, o', e'); }
    forall o', e' | (o', e') in q ensures Held(t, o', e') { assert Held(s, o', e'); }
  }

  lemma RecordedSlotKeepsInv(s: Files, q: Quarantine, o: nat, c: Content)
    requires Inv(s, q) && SizeOf(c) <= RESULT_LIMIT && (SlotPayload(o) in s ==> s[SlotPayload(o)] == c)
    requires SlotPayload(o) !in s ==> SlotDigest(o) !in s
    ensures Inv(s[SlotPayload(o) := c][SlotDigest(o) := DigestLine(Sha256(c))], q)
  {
    var t := s[SlotPayload(o) := c][SlotDigest(o) := DigestLine(Sha256(c))];
    forall o' ensures DigestBacked(t, q, o') { assert DigestBacked(s, q, o'); }
    forall o', e' ensures ArchiveTrue(t, o', e') { assert ArchiveTrue(s, o', e'); }
    forall o', e' | (o', e') in q ensures Held(t, o', e') { assert Held(s, o', e'); }
  }

  lemma SettledSlot(files: Files, q: Quarantine, o: nat)
    requires Inv(files, q)
    ensures Inv(Settle(files, q, o), q)
    ensures SlotPayload(o) !in Settle(files, q, o) ==> SlotDigest(o) !in Settle(files, q, o)
  {
    assert DigestBacked(files, q, o);
    match Classify(files, q, o) {
      case Rejected(e) =>
        ArchiveStageKeepsInv(files, q, o, e, 4);
        assert ArchiveStage(files, o, e, 4) == Settle(files, q, o);
      case _ =>
    }
  }

  /** At every crash point of a capture, with any directory syncs failing: the slot invariant holds, so
      no digest vouches for missing bytes and no rejected bytes are lost. */
  lemma CaptureKeepsInvAtCrash(d: Disk, q: Quarantine, o: nat, c: Content, faults: seq<bool>, budget: nat)
    requires Inv(d.files, q)
    ensures Inv(Run(d, Cut(CapturePlan(d, q, o, c, faults).ops, budget)).files, q)
  {
    var P: Files -> bool := f => Inv(f, q);
    var files := d.files;
    if Classify(files, q, o).Rejected? {
      forall j | 0 <= j <= 4 ensures P(ArchiveStage(files, o, Classify(files, q, o).digest, j)) {
        ArchiveStageKeepsInv(files, q, o, Classify(files, q, o).digest, j);
      }
    }
    SettledSlot(files, q, o);
    var s := Settle(files, q, o);
    if SlotPayload(o) !in s { PublishedPayloadKeepsInv(s, q, o, c); }
    if Admits(files, q, o, c) { RecordedSlotKeepsInv(s, q, o, c); }
    CaptureShowsStagesOnly(d, q, o, c, faults, P);
    AlwaysAtCrash(d, CapturePlan(d, q, o, c, faults).ops, P, budget);
  }

  // The bytes seen in a slot during a capture: none, those that were there, or the new ones - and
  // the new ones never take the place of others that the archive does not hold.
  ghost predicate SlotHistory(before: Files, now: Files, o: nat, c: Content) {
    var sp := SlotPayload(o);
    && (sp in now ==> now[sp] == c || (sp in before && now[sp] == before[sp]))
    && (sp in before && (sp !in now || now[sp] != before[sp]) ==>
          var e := Sha256(before[sp]);
          Archived(now, o, e) && now[ArchivePayload(o, e)] == before[sp])
  }

  /** A slot is never overwritten: whatever the crash point, bytes that were in the slot are still there
      or are in the archive together with their digest. */
  lemma CaptureNeverOverwrites(d: Disk, q: Quarantine, o: nat, c: Content, faults: seq<bool>, budget: nat)
    requires Inv(d.files, q)
    ensures SlotHistory(d.files, Run(d, Cut(CapturePlan(d, q, o, c, faults).ops, budget)).files, o, c)
  {
    var P: Files -> bool := f => SlotHistory(d.files, f, o, c);
    var files := d.files;
    assert DigestBacked(files, q, o);
    if Classify(files, q, o).Rejected? {
      assert ArchiveTrue(files, o, Classify(files, q, o).digest);
      assert ArchiveStage(files, o, Classify(files, q, o).digest, 4) == Settle(files, q, o);
    }
    CaptureShowsStagesOnly(d, q, o, c, faults, P);
    AlwaysAtCrash(d, CapturePlan(d, q, o, c, faults).ops, P, budget);
  }

  lemma CaptureGoalAtStore(files: Files, q: Quarantine, o: nat, c: Content)
    requires Inv(files, q) && Admits(files, q, o, c)
    ensures var s := Settle(files, q, o);
            forall t | t == s || t == s[SlotPayload(o) := c] || t == Captured(files, q, o, c) ::
              Admits(t, q, o, c) && Captured(t, q, o, c) == Captured(files, q, o, c)
  {
    var s := Settle(files, q, o);
    var sp, sd := SlotPayload(o), SlotDigest(o);
    var e := Sha256(c);
    SettledSlot(files, q, o);
    assert DigestBacked(files, q, o);
    assert DigestBacked(s, q, o) && ArchiveTrue(s, o, e);
    assert Settle(s, q, o) == s;
    if (o, e) in q {
      assert Held(s, o, e);
      assert sp !in s && Archived(s, o, e) && s[ArchivePayload(o, e)] == c;
      assert s[ArchivePayload(o, e) := c][ArchiveDigest(o, e) := DigestLine(e)] == s;
      assert s[sp := c][ArchivePayload(o, e) := c][ArchiveDigest(o, e) := DigestLine(e)] - {sp, sd} == s;
    }
  }

  /** Retrying a capture converges. After a crash anywhere in a capture of `c` the same capture is still
      admissible and still aims at the same directory; a later run without failing syncs acknowledges
      and leaves exactly that directory. */
  lemma CaptureConverges(d: Disk, q: Quarantine, o: nat, c: Content, faults: seq<bool>, budget: nat, again: seq<bool>)
    requires Inv(d.files, q) && Admits(d.files, q, o, c) && FaultFree(again)
    ensures var d' := Run(d, Cut(CapturePlan(d, q, o, c, faults).ops, budget));
            var retry := CapturePlan(d', q, o, c, again);
            retry.outcome.Acked? && Run(d', retry.ops).files == Captured(d.files, q, o, c)
  {
    var goal := Captured(d.files, q, o, c);
    var P: Files -> bool := f => Inv(f, q) && Admits(f, q, o, c) && Captured(f, q, o, c) == goal;
    var files := d.files;
    if Classify(files, q, o).Rejected? {
      forall j | 0 <= j <= 4 ensures P(ArchiveStage(files, o, Classify(files, q, o).digest, j)) {
        ArchiveStageKeepsInv(files, q, o, Classify(files, q, o).digest, j);
        ArchiveStageKeepsGoal(files, q, o, Classify(files, q, o).digest, j);
      }
    }
    SettledSlot(files, q, o);
    CaptureGoalAtStore(files, q, o, c);
    var s := Settle(files, q, o);
    if SlotPayload(o) !in s { PublishedPayloadKeepsInv(s, q, o, c); }
    RecordedSlotKeepsInv(s, q, o, c);
    CaptureShowsStagesOnly(d, q, o, c, faults, P);
    AlwaysAtCrash(d, CapturePlan(d, q, o, c, faults).ops, P, budget);
    var d' := Run(d, Cut(CapturePlan(d, q, o, c, faults).ops, budget));
    CaptureAckedIffAdmits(d', q, o, c, again);
  }

  /** What an acknowledgement means, and exactly when a capture undisturbed by failing syncs gets one. */
  lemma CaptureAckedIffAdmits(d: Disk, q: Quarantine, o: nat, c: Content, faults: seq<bool>)
    requires Inv(d.files, q)
    ensures CapturePlan(d, q, o, c, faults).outcome.Acked? ==>
              Admits(d.files, q, o, c) && Run(d, CapturePlan(d, q, o, c, faults).ops).files == Captured(d.files, q, o, c)
    ensures FaultFree(faults) ==> (CapturePlan(d, q, o, c, faults).outcome.Acked? <==> Admits(d.files, q, o, c))
  {
    CaptureShowsStagesOnly(d, q, o, c, faults, f => true);
  }

  /** Convergence of the archive step alone: from any crash point, with any syncs failing before, a
      rerun without failing syncs reaches the intended directory, and running it again does nothing. */
  lemma ArchiveConverges(d: Disk, q: Quarantine, o: nat, faults: seq<bool>, budget: nat, again: seq<bool>)
    requires Inv(d.files, q) && !Classify(d.files, q, o).Broken? && FaultFree(again)
    ensures var d' := Run(d, Cut(ArchivePlan(d.files, q, o, faults).ops, budget));
            var retry := ArchivePlan(d'.files, q, o, again);
            var d'' := Run(d', retry.ops);
            retry.outcome.Acked? && d''.files == Settle(d.files, q, o) &&
            ArchivePlan(d''.files, q, o, again) == Plan([], Acked)
  {
    ArchiveAtCrash(d, q, o, faults, budget);
    var d' := Run(d, Cut(ArchivePlan(d.files, q, o, faults).ops, budget));
    assert DigestBacked(d.files, q, o) && DigestBacked(d'.files, q, o);
    match Classify(d'.files, q, o) {
      case Rejected(e) =>
        ArchiveShowsStagesOnly(d', q, o, e, again, f => true);
      case Broken(error) =>
        assert false;
      case _ =>
        assert Run(d', []) == d';
    }
  }

  // The guard on size is needed: bytes over the limit, published just before a crash, block the slot
  // for every later capture.
  lemma OversizedPayloadWedgesSlot(d: Disk, q: Quarantine, o: nat, c: Content, faults: seq<bool>,
                                   later: Content, laterFaults: seq<bool>)
    requires Classify(d.files, q, o) == Empty && SizeOf(c) > RESULT_LIMIT
    ensures var d' := Run(d, Cut(CapturePlan(d, q, o, c, faults).ops, 3));
            CapturePlan(d', q, o, later, laterFaults) == Plan([], Failed(TooLarge))
  {
    var plan := CapturePlan(d, q, o, c, faults);
    var publish := PublishOps(d.files, SlotPayload(o), c);
    assert Run(d, []) == d;
    assert plan.ops == publish + [Remove(SlotPayload(o))];
    assert plan.ops[..3] == publish;
    PublishIsAtomic(d, SlotPayload(o), c, f => true);
  }
}
