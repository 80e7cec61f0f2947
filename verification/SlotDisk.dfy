/**
 The directory that holds captured reviewer results, and the file steps performed on it.

 Every file operation is one step. A call into the artifact code is a list of such steps, so the
 states a crash can leave behind are exactly the states after a prefix of that list. Directory
 steps take effect in order. SHA-256 is the free constructor Sha256, hence injective.
 */
module SlotDisk {
  import Crash

  type Bytes = seq<bv8>

  const RESULT_LIMIT: nat := 4194304
  const DIGEST_LIMIT: nat := 256
  const DIGEST_LINE_SIZE: nat := 72

  datatype Digest = Sha256(of: Content)

  // A file holds either arbitrary bytes or the text of one digest followed by a newline.
  datatype Content = Raw(bytes: Bytes) | DigestLine(digest: Digest)

  function SizeOf(c: Content): nat {
    match c
    case Raw(bytes) => |bytes|
    case DigestLine(_) => DIGEST_LINE_SIZE
  }

  // The slot of a selected lens is its zero-based order; an archive entry is named by the slot and
  // the digest the authority rejected there.
  datatype Path =
    | SlotPayload(order: nat)
    | SlotDigest(order: nat)
    | ArchivePayload(order: nat, rejected: Digest)
    | ArchiveDigest(order: nat, rejected: Digest)

  type Files = map<Path, Content>

  // Temporary files carry fresh numbers; `nextTemp - 1` is the one the running call owns.
  datatype Disk = Disk(files: Files, temps: map<nat, Content>, nextTemp: nat)

  datatype FileOp =
    | CreateTemp
    | FillTemp(content: Content)
    | PublishTemp(path: Path)
    | DropTemp
    | Remove(path: Path)

  // PublishTemp is a rename that refuses to replace: on an occupied path nothing changes.
  function Apply(d: Disk, op: FileOp): Disk {
    match op
    case CreateTemp => Disk(d.files, d.temps[d.nextTemp := Raw([])], d.nextTemp + 1)
    case FillTemp(c) =>
      if d.nextTemp == 0 then d else Disk(d.files, d.temps[d.nextTemp - 1 := c], d.nextTemp)
    case PublishTemp(p) =>
      if d.nextTemp == 0 || d.nextTemp - 1 !in d.temps || p in d.files then d
      else Disk(d.files[p := d.temps[d.nextTemp - 1]], d.temps - {d.nextTemp - 1}, d.nextTemp)
    case DropTemp =>
      if d.nextTemp == 0 then d else Disk(d.files, d.temps - {d.nextTemp - 1}, d.nextTemp)
    case Remove(p) => Disk(d.files - {p}, d.temps, d.nextTemp)
  }

  function Run(d: Disk, ops: seq<FileOp>): Disk {
    Crash.Run(Apply, d, ops)
  }

  function Cut(ops: seq<FileOp>, budget: nat): seq<FileOp> {
    Crash.Cut(ops, budget)
  }

  // P holds of the files at every crash point.
  ghost predicate Always(d: Disk, ops: seq<FileOp>, P: Files -> bool) {
    Crash.Always(Apply, d, ops, OfFiles(P))
  }

  ghost function OfFiles(P: Files -> bool): Disk -> bool {
    (d: Disk) => P(d.files)
  }

  lemma RunConcat(d: Disk, a: seq<FileOp>, b: seq<FileOp>)
    ensures Run(d, a + b) == Run(Run(d, a), b)
  {
    Crash.RunConcat(Apply, d, a, b);
  }

  lemma AlwaysAtCrash(d: Disk, ops: seq<FileOp>, P: Files -> bool, budget: nat)
    requires Always(d, ops, P)
    ensures P(Run(d, Cut(ops, budget)).files)
  {
    Crash.AlwaysAtCrash(Apply, d, ops, OfFiles(P), budget);
  }

  lemma AlwaysConcat(d: Disk, a: seq<FileOp>, b: seq<FileOp>, P: Files -> bool)
    requires Always(d, a, P) && Always(Run(d, a), b, P)
    ensures Always(d, a + b, P)
  {
    Crash.AlwaysConcat(Apply, d, a, b, OfFiles(P));
  }

  // Write a temporary file and try to publish it; when the path is taken the temporary is dropped.
  function PublishOps(files: Files, p: Path, c: Content): seq<FileOp> {
    [CreateTemp, FillTemp(c), if p in files then DropTemp else PublishTemp(p)]
  }

  // Publication is atomic and never replaces: at no step is `p` seen with other bytes than before
  // it, or than `c`.
  lemma PublishIsAtomic(d: Disk, p: Path, c: Content, P: Files -> bool)
    requires P(d.files)
    requires p !in d.files ==> P(d.files[p := c])
    ensures Run(d, PublishOps(d.files, p, c)).files == if p in d.files then d.files else d.files[p := c]
    ensures Always(d, PublishOps(d.files, p, c), P)
  {
    var ops := PublishOps(d.files, p, c);
    var d1 := Apply(d, ops[0]);
    var d2 := Apply(d1, ops[1]);
    var d3 := Apply(d2, ops[2]);
    Crash.AlwaysByStages(Apply, d, ops, OfFiles(P), [d, d1, d2, d3]);
  }

  lemma RemoveIsAtomic(d: Disk, p: Path, P: Files -> bool)
    requires P(d.files) && P(d.files - {p})
    ensures Run(d, [Remove(p)]).files == d.files - {p}
    ensures Always(d, [Remove(p)], P)
  {
    Crash.AlwaysByStages(Apply, d, [Remove(p)], OfFiles(P), [d, Apply(d, Remove(p))]);
  }
}
