/**
 Whole histories of a results directory: captures by any callers, each cut off anywhere and with any
 syncs failing, archive steps, and rejections by the authority. What restart discovery finds in them.
 */
module SlotRuns {
  import opened SlotDisk
  import opened SlotPlans
  import opened SlotSafety

  // `budget` is the number of file steps the process performs before it dies.
  datatype Event =
    | Capture(order: nat, content: Content, faults: seq<bool>, budget: nat)
    | Archive(order: nat, faults: seq<bool>, budget: nat)
    | Reject(order: nat)

  datatype World = World(disk: Disk, quarantine: Quarantine)

  const Fresh := World(Disk(map[], map[], 0), {})

  // A slot restart discovery must report: it has a digest, and the authority has not rejected it.
  predicate Listed(files: Files, q: Quarantine, o: nat) {
    SlotDigest(o) in files && !(files[SlotDigest(o)].DigestLine? && (o, files[SlotDigest(o)].digest) in q)
  }

  // Reopening a review rejects results that are currently listed; rejections are never withdrawn.
  function Step(w: World, ev: Event): World {
    match ev
    case Capture(o, c, faults, budget) =>
      w.(disk := Run(w.disk, Cut(CapturePlan(w.disk, w.quarantine, o, c, faults).ops, budget)))
    case Archive(o, faults, budget) =>
      w.(disk := Run(w.disk, Cut(ArchivePlan(w.disk.files, w.quarantine, o, faults).ops, budget)))
    case Reject(o) =>
      if Listed(w.disk.files, w.quarantine, o) && w.disk.files[SlotDigest(o)].DigestLine? then
        w.(quarantine := w.quarantine + {(o, w.disk.files[SlotDigest(o)].digest)})
      else w
  }

  function History(w: World, events: seq<Event>): World
    decreases |events|
  {
    if events == [] then w else Step(History(w, events[..|events| - 1]), events[|events| - 1])
  }

  lemma {:induction false} StepKeepsInv(w: World, ev: Event)
    requires Inv(w.disk.files, w.quarantine)
    ensures Inv(Step(w, ev).disk.files, Step(w, ev).quarantine)
  {
    match ev {
      case Capture(o, c, faults, budget) => CaptureKeepsInvAtCrash(w.disk, w.quarantine, o, c, faults, budget);
      case Archive(o, faults, budget) => ArchiveAtCrash(w.disk, w.quarantine, o, faults, budget);
      case Reject(o) =>
        var files, q, q' := w.disk.files, w.quarantine, Step(w, ev).quarantine;
        assert DigestBacked(files, q, o);
        forall o' ensures DigestBacked(files, q', o') { assert DigestBacked(files, q, o'); }
        forall o', e' | (o', e') in q' ensures Held(files, o', e') {
          if (o', e') in q { assert Held(files, o', e'); }
        }
    }
  }

  /** The slot invariant holds in every state any history can reach. */
  lemma {:induction false} ReachableInv(events: seq<Event>)
    ensures Inv(History(Fresh, events).disk.files, History(Fresh, events).quarantine)
    decreases |events|
  {
    if events == [] {
    } else {
      ReachableInv(events[..|events| - 1]);
      StepKeepsInv(History(Fresh, events[..|events| - 1]), events[|events| - 1]);
    }
  }

  // A slot holding `c`, vouched for by its digest.
  predicate Holds(files: Files, o: nat, c: Content) {
    && SlotPayload(o) in files && files[SlotPayload(o)] == c
    && SlotDigest(o) in files && files[SlotDigest(o)] == DigestLine(Sha256(c))
  }

  // A listed result is not disturbed by anything but its own rejection, at any crash point.
  lemma StepKeepsListed(w: World, ev: Event, o: nat, c: Content)
    requires Inv(w.disk.files, w.quarantine)
    requires Holds(w.disk.files, o, c) && (o, Sha256(c)) !in w.quarantine
    requires ev != Reject(o)
    ensures Holds(Step(w, ev).disk.files, o, c) && (o, Sha256(c)) !in Step(w, ev).quarantine
  {
    var d, files, q := w.disk, w.disk.files, w.quarantine;
    var P: Files -> bool := f => Holds(f, o, c);
    assert DigestBacked(files, q, o) && DigestBacked(files, q, ev.order);
    match ev {
      case Capture(o', c', faults, budget) =>
        if o' == o {
          assert Classify(files, q, o) == Kept;
        }
        CaptureShowsStagesOnly(d, q, o', c', faults, P);
        AlwaysAtCrash(d, CapturePlan(d, q, o', c', faults).ops, P, budget);
      case Archive(o', faults, budget) =>
        var ops := ArchivePlan(files, q, o', faults).ops;
        if Classify(files, q, o').Rejected? {
          ArchiveShowsStagesOnly(d, q, o', Classify(files, q, o').digest, faults, P);
          AlwaysAtCrash(d, ops, P, budget);
        } else {
          assert Run(d, []) == d;
        }
      case Reject(o') =>
    }
  }

  /** A capture acknowledged for bytes the authority has not rejected stays in its slot, with the same
      bytes and digest, through any later history that does not reject that slot. */
  lemma {:induction false} AcknowledgedStays(w: World, o: nat, c: Content, faults: seq<bool>, budget: nat,
                                             later: seq<Event>)
    requires Inv(w.disk.files, w.quarantine) && (o, Sha256(c)) !in w.quarantine
    requires CapturePlan(w.disk, w.quarantine, o, c, faults).outcome.Acked?
    requires budget >= |CapturePlan(w.disk, w.quarantine, o, c, faults).ops|
    requires forall i :: 0 <= i < |later| ==> later[i] != Reject(o)
    ensures var after := History(Step(w, Capture(o, c, faults, budget)), later);
            Holds(after.disk.files, o, c) && Listed(after.disk.files, after.quarantine, o) &&
            Inv(after.disk.files, after.quarantine)
    decreases |later|
  {
    var start := Step(w, Capture(o, c, faults, budget));
    if later == [] {
      CaptureAckedIffAdmits(w.disk, w.quarantine, o, c, faults);
      StepKeepsInv(w, Capture(o, c, faults, budget));
    } else {
      AcknowledgedStays(w, o, c, faults, budget, later[..|later| - 1]);
      var before := History(start, later[..|later| - 1]);
      StepKeepsListed(before, later[|later| - 1], o, c);
      StepKeepsInv(before, later[|later| - 1]);
    }
  }

  // Rejected bytes are never lost: once rejected, the authority can find them after any history.
  lemma {:induction false} RejectedBytesSurvive(events: seq<Event>, o: nat, e: Digest)
    requires (o, e) in History(Fresh, events).quarantine
    ensures Held(History(Fresh, events).disk.files, o, e)
  {
    ReachableInv(events);
  }

  // ----- Restart discovery -----

  datatype Found = Found(order: nat, digest: Digest)
  datatype Discovery = Artifacts(found: seq<Found>) | Unreadable(order: nat)

  // The verified read discovery relies on.
  predicate ReadsBack(files: Files, o: nat, digest: Digest) {
    SlotPayload(o) in files && SizeOf(files[SlotPayload(o)]) <= RESULT_LIMIT &&
    Sha256(files[SlotPayload(o)]) == digest
  }

  predicate Ascending(found: seq<Found>) {
    forall i, j :: 0 <= i < j < |found| ==> found[i].order < found[j].order
  }

  // Exactly the listed slots below `n`, each with the digest its file names.
  ghost predicate ReportsExactly(files: Files, q: Quarantine, n: nat, found: seq<Found>) {
    && Ascending(found)
    && (forall i :: 0 <= i < |found| ==>
          found[i].order < n && Listed(files, q, found[i].order) &&
          files[SlotDigest(found[i].order)] == DigestLine(found[i].digest))
    && (forall o: nat :: o < n && Listed(files, q, o) ==> exists i :: 0 <= i < |found| && found[i].order == o)
  }

  /** Discovery never fails on a directory that satisfies the slot invariant, and reports exactly the
      slots with a digest that is not rejected, in ascending order. */
  method Discover(files: Files, q: Quarantine, lenses: nat) returns (r: Discovery)
    ensures r.Artifacts? ==> ReportsExactly(files, q, lenses, r.found)
    ensures r.Artifacts? ==> forall i :: 0 <= i < |r.found| ==> ReadsBack(files, r.found[i].order, r.found[i].digest)
    ensures Inv(files, q) ==> r.Artifacts?
  {
    var found: seq<Found> := [];
    for o := 0 to lenses
      invariant ReportsExactly(files, q, o, found)
      invariant forall i :: 0 <= i < |found| ==> ReadsBack(files, found[i].order, found[i].digest)
    {
      if SlotDigest(o) in files {
        var text := files[SlotDigest(o)];
        assert Inv(files, q) ==> DigestBacked(files, q, o);
        if !(text.DigestLine? && (o, text.digest) in q) {
          if !text.DigestLine? || !ReadsBack(files, o, text.digest) {
            return Unreadable(o);
          }
          ghost var previous := found;
          found := found + [Found(o, text.digest)];
          assert found[|previous|].order == o;
          forall o': nat | o' < o + 1 && Listed(files, q, o')
            ensures exists i :: 0 <= i < |found| && found[i].order == o'
          {
            if o' < o {
              var i :| 0 <= i < |previous| && previous[i].order == o';
              assert found[i].order == o';
            }
          }
        }
      }
    }
    return Artifacts(found);
  }

  // Two reports that satisfy the description are the same report.
  lemma {:induction false} ReportIsUnique(files: Files, q: Quarantine, n: nat, a: seq<Found>, b: seq<Found>)
    requires ReportsExactly(files, q, n, a) && ReportsExactly(files, q, n, b)
    ensures a == b
    decreases |a|
  {
    if a != [] { assert Listed(files, q, a[0].order); }
    if b != [] { assert Listed(files, q, b[0].order); }
    if a == [] || b == [] {
      assert a == b == [];
    } else {
      var x, y := a[|a| - 1], b[|b| - 1];
      ReportLastIsGreatest(files, q, n, a, y.order);
      ReportLastIsGreatest(files, q, n, b, x.order);
      assert x.order == y.order;
      ReportDropLast(files, q, n, a);
      ReportDropLast(files, q, n, b);
      ReportIsUnique(files, q, x.order, a[..|a| - 1], b[..|b| - 1]);
      assert a == a[..|a| - 1] + [x] && b == b[..|b| - 1] + [y];
    }
  }

  lemma ReportLastIsGreatest(files: Files, q: Quarantine, n: nat, a: seq<Found>, o: nat)
    requires ReportsExactly(files, q, n, a) && a != [] && o < n && Listed(files, q, o)
    ensures o <= a[|a| - 1].order
  {
    var i :| 0 <= i < |a| && a[i].order == o;
  }

  lemma ReportDropLast(files: Files, q: Quarantine, n: nat, a: seq<Found>)
    requires ReportsExactly(files, q, n, a) && a != []
    ensures ReportsExactly(files, q, a[|a| - 1].order, a[..|a| - 1])
  {
    var m := a[|a| - 1].order;
    var short := a[..|a| - 1];
    forall o: nat | o < m && Listed(files, q, o) ensures exists i :: 0 <= i < |short| && short[i].order == o {
      var i :| 0 <= i < |a| && a[i].order == o;
      assert short[i].order == o;
    }
  }
}
