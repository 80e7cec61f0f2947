/**
 The checksum of a set of files, and what it is worth when two of them agree.

 `hash` is the hexadecimal hash of a file. SHA-256 over the composed text is injective, so a checksum is
 represented by the text it was computed from.
 */
module BackupChecksum {
  import opened BackupFiles
  import opened StatusStrings
  import opened TextLines

  const HASH_SIZE: nat := 64

  // Hashes are fixed-size and printable, and the files at hand do not collide.
  ghost predicate HashOf(hash: Bytes -> string, contents: set<Bytes>) {
    && (forall b :: b in contents ==> |hash(b)| == HASH_SIZE && '\n' !in hash(b))
    && (forall a, b :: a in contents && b in contents && hash(a) == hash(b) ==> a == b)
  }

  datatype Checksum = NoChecksum | Sum(text: string)

  // The checksum a backup of no files is given: that of the empty text.
  const EMPTY_SET := Sum("")

  function Existing(fs: Files, paths: seq<Path>): seq<Path> {
    if paths == [] then []
    else
      var init, p := Existing(fs, paths[..|paths| - 1]), paths[|paths| - 1];
      if Backed(fs, p) then init + [p] else init
  }

  function Line(hash: Bytes -> string, p: Path, data: Bytes): string {
    (p + ":") + hash(data)
  }

  function DataAt(fs: Files, p: Path): Bytes {
    if Backed(fs, p) then FileAt(fs, p).data else []
  }

  function Text(hash: Bytes -> string, fs: Files, paths: seq<Path>): string {
    if paths == [] then "" else Line(hash, paths[0], DataAt(fs, paths[0])) + "\n" + Text(hash, fs, paths[1..])
  }

  // `c` is the checksum of the existing regular files among `paths`.
  ghost predicate IsChecksum(hash: Bytes -> string, fs: Files, paths: seq<Path>, c: Checksum) {
    if Existing(fs, paths) == [] then c == NoChecksum
    else exists sorted :: Sorted(sorted) && Permutes(sorted, Existing(fs, paths)) && c == Sum(Text(hash, fs, sorted))
  }

  method Filter(fs: Files, paths: seq<Path>) returns (kept: seq<Path>)
    ensures kept == Existing(fs, paths)
  {
    kept := [];
    for k := 0 to |paths|
      invariant kept == Existing(fs, paths[..k])
    {
      assert paths[..k + 1][..k] == paths[..k] && paths[..k + 1][k] == paths[k];
      if Backed(fs, paths[k]) { kept := kept + [paths[k]]; }
    }
    assert paths[..|paths|] == paths;
  }

  lemma {:induction false} TextAppends(hash: Bytes -> string, fs: Files, a: seq<Path>, p: Path)
    ensures Text(hash, fs, a + [p]) == Text(hash, fs, a) + (Line(hash, p, DataAt(fs, p)) + "\n")
    decreases |a|
  {
    if a == [] {
      assert [p][1..] == [];
      assert a + [p] == [p];
      assert Text(hash, fs, []) == "";
      assert Text(hash, fs, [p]) == Line(hash, p, DataAt(fs, p)) + "\n" + Text(hash, fs, [p][1..]);
    } else {
      assert (a + [p])[1..] == a[1..] + [p];
      TextAppends(hash, fs, a[1..], p);
      var first := Line(hash, a[0], DataAt(fs, a[0])) + "\n";
      var rest, last := Text(hash, fs, a[1..]), Line(hash, p, DataAt(fs, p)) + "\n";
      assert first + (rest + last) == (first + rest) + last;
    }
  }

  /** ComputeChecksum: filter, sort, concatenate. */
  method ComputeChecksum(hash: Bytes -> string, fs: Files, paths: seq<Path>) returns (c: Checksum)
    ensures IsChecksum(hash, fs, paths, c)
    ensures c.Sum? ==> c.text != ""
  {
    var kept := Filter(fs, paths);
    if kept == [] { return NoChecksum; }
    var sorted := SortedStrings(kept);
    assert sorted != [] by { assert |multiset(sorted)| == |sorted| && |multiset(kept)| == |kept|; }
    var text := "";
    for k := 0 to |sorted|
      invariant text == Text(hash, fs, sorted[..k])
      invariant k > 0 ==> text != ""
    {
      assert sorted[..k + 1] == sorted[..k] + [sorted[k]];
      TextAppends(hash, fs, sorted[..k], sorted[k]);
      text := text + (Line(hash, sorted[k], DataAt(fs, sorted[k])) + "\n");
    }
    assert sorted[..|sorted|] == sorted;
    return Sum(text);
  }

  // ----- order does not matter -----

  lemma {:induction false} ExistingConcat(fs: Files, a: seq<Path>, b: seq<Path>)
    ensures Existing(fs, a + b) == Existing(fs, a) + Existing(fs, b)
    decreases |b|
  {
    if b == [] {
      assert a + b == a;
    } else {
      assert (a + b)[..|a + b| - 1] == a + b[..|b| - 1];
      ExistingConcat(fs, a, b[..|b| - 1]);
    }
  }

  lemma {:induction false} ExistingCounts(fs: Files, paths: seq<Path>, p: Path)
    ensures multiset(Existing(fs, paths))[p] == if Backed(fs, p) then multiset(paths)[p] else 0
    decreases |paths|
  {
    if paths != [] {
      ExistingCounts(fs, paths[..|paths| - 1], p);
      assert paths == paths[..|paths| - 1] + [paths[|paths| - 1]];
    }
  }

  /** The checksum does not depend on the order of the targets. */
  lemma ChecksumIgnoresOrder(hash: Bytes -> string, fs: Files, a: seq<Path>, b: seq<Path>, c: Checksum, d: Checksum)
    requires Permutes(a, b) && IsChecksum(hash, fs, a, c) && IsChecksum(hash, fs, b, d)
    ensures c == d
  {
    assert multiset(Existing(fs, a)) == multiset(Existing(fs, b)) by {
      forall p ensures multiset(Existing(fs, a))[p] == multiset(Existing(fs, b))[p] {
        ExistingCounts(fs, a, p);
        ExistingCounts(fs, b, p);
      }
    }
    SameSize(Existing(fs, a), Existing(fs, b));
    if Existing(fs, a) != [] {
      var s :| Sorted(s) && Permutes(s, Existing(fs, a)) && c == Sum(Text(hash, fs, s));
      var t :| Sorted(t) && Permutes(t, Existing(fs, b)) && d == Sum(Text(hash, fs, t));
      SortedIsUnique(s, t);
    }
  }

  lemma SameSize(a: seq<Path>, b: seq<Path>)
    requires multiset(a) == multiset(b)
    ensures |a| == |b|
  {
    assert |multiset(a)| == |a| && |multiset(b)| == |b|;
  }

  // ----- equal checksums mean equal files -----

  lemma LineDeterminesFile(hash: Bytes -> string, contents: set<Bytes>, p: Path, a: Bytes, q: Path, b: Bytes)
    requires HashOf(hash, contents) && a in contents && b in contents && Line(hash, p, a) == Line(hash, q, b)
    ensures p == q && a == b
  {
    assert |Line(hash, p, a)| == |p| + 1 + HASH_SIZE && |Line(hash, q, b)| == |q| + 1 + HASH_SIZE;
    assert Line(hash, p, a)[|p| + 1..] == hash(a) && Line(hash, q, b)[|q| + 1..] == hash(b);
    assert Line(hash, p, a)[..|p|] == p && Line(hash, q, b)[..|q|] == q;
  }

  lemma {:induction false} TextDeterminesFiles(hash: Bytes -> string, contents: set<Bytes>, fs: Files, a: seq<Path>, gs: Files, b: seq<Path>)
    requires Text(hash, fs, a) == Text(hash, gs, b)
    requires forall p :: p in a ==> '\n' !in p && DataAt(fs, p) in contents
    requires forall p :: p in b ==> '\n' !in p && DataAt(gs, p) in contents
    requires HashOf(hash, contents)
    ensures a == b && forall p :: p in a ==> DataAt(fs, p) == DataAt(gs, p)
    decreases |a|
  {
    assert a != [] ==> |Text(hash, fs, a)| > 0;
    assert b != [] ==> |Text(hash, gs, b)| > 0;
    if a != [] && b != [] {
      var x, y := Line(hash, a[0], DataAt(fs, a[0])), Line(hash, b[0], DataAt(gs, b[0]));
      assert '\n' !in x && '\n' !in y;
      FirstLineIsUnique(x, Text(hash, fs, a[1..]), y, Text(hash, gs, b[1..]));
      LineDeterminesFile(hash, contents, a[0], DataAt(fs, a[0]), b[0], DataAt(gs, b[0]));
      TextDeterminesFiles(hash, contents, fs, a[1..], gs, b[1..]);
      assert a == [a[0]] + a[1..] && b == [b[0]] + b[1..];
    }
  }

  // The files a checksum is about, at either time.
  function ContentsOf(fs: Files, paths: seq<Path>): set<Bytes> {
    set p | p in Existing(fs, paths) :: DataAt(fs, p)
  }

  predicate NewlineFree(paths: seq<Path>) {
    forall p :: p in paths ==> '\n' !in p
  }

  /** Equal checksums of newline-free paths mean equal files: the same paths exist as regular files, equally
      often in the lists, with the same bytes. */
  lemma {:induction false} ChecksumDeterminesFiles(hash: Bytes -> string, fs: Files, a: seq<Path>, gs: Files, b: seq<Path>, c: Checksum)
    requires IsChecksum(hash, fs, a, c) && IsChecksum(hash, gs, b, c) && c.Sum?
    requires NewlineFree(a) && NewlineFree(b) && HashOf(hash, ContentsOf(fs, a) + ContentsOf(gs, b))
    ensures Permutes(Existing(fs, a), Existing(gs, b))
    ensures forall p :: p in Existing(fs, a) ==> DataAt(fs, p) == DataAt(gs, p)
  {
    var s :| Sorted(s) && Permutes(s, Existing(fs, a)) && c == Sum(Text(hash, fs, s));
    var t :| Sorted(t) && Permutes(t, Existing(gs, b)) && c == Sum(Text(hash, gs, t));
    var contents := ContentsOf(fs, a) + ContentsOf(gs, b);
    ExistingAre(fs, a);
    ExistingAre(gs, b);
    forall p | p in s ensures '\n' !in p && DataAt(fs, p) in contents { assert p in multiset(s); }
    forall p | p in t ensures '\n' !in p && DataAt(gs, p) in contents { assert p in multiset(t); }
    TextDeterminesFiles(hash, contents, fs, s, gs, t);
    forall p | p in Existing(fs, a) ensures DataAt(fs, p) == DataAt(gs, p) {
      assert p in multiset(Existing(fs, a));
      assert p in multiset(s);
    }
  }

  lemma {:induction false} ExistingAre(fs: Files, paths: seq<Path>)
    ensures forall p :: p in Existing(fs, paths) <==> p in paths && Backed(fs, p)
  {
    if paths != [] {
      ExistingAre(fs, paths[..|paths| - 1]);
      assert paths == paths[..|paths| - 1] + [paths[|paths| - 1]];
    }
  }

  // ----- equal files have equal checksums -----

  lemma {:induction false} TextDependsOnData(hash: Bytes -> string, fs: Files, gs: Files, a: seq<Path>)
    requires forall p :: p in a ==> DataAt(fs, p) == DataAt(gs, p)
    ensures Text(hash, fs, a) == Text(hash, gs, a)
    decreases |a|
  {
    if a != [] { TextDependsOnData(hash, fs, gs, a[1..]); }
  }

  // The same paths exist, equally often, with the same bytes.
  ghost predicate SameFiles(fs: Files, a: seq<Path>, gs: Files, b: seq<Path>) {
    Permutes(Existing(fs, a), Existing(gs, b)) && forall p :: p in Existing(fs, a) ==> DataAt(fs, p) == DataAt(gs, p)
  }

  /** Files that are the same, in whatever order they are listed and whatever else changed, have the same
      checksum. */
  lemma SameFilesSameChecksum(hash: Bytes -> string, fs: Files, a: seq<Path>, gs: Files, b: seq<Path>, c: Checksum)
    requires SameFiles(fs, a, gs, b) && IsChecksum(hash, fs, a, c)
    ensures IsChecksum(hash, gs, b, c)
  {
    SameSize(Existing(fs, a), Existing(gs, b));
    if Existing(fs, a) != [] {
      var s :| Sorted(s) && Permutes(s, Existing(fs, a)) && c == Sum(Text(hash, fs, s));
      forall p | p in s ensures DataAt(fs, p) == DataAt(gs, p) {
        assert p in multiset(s);
        assert p in multiset(Existing(fs, a));
      }
      TextDependsOnData(hash, fs, gs, s);
      assert Permutes(s, Existing(gs, b));
    }
  }

  // A newline in a path breaks the converse: two files "a" and "b" read like one file whose name spells the
  // first line.
  lemma NewlinePathCollides(hash: Bytes -> string, x: Bytes, y: Bytes)
    ensures var fs: Files := map["a" := Regular(x, 0), "b" := Regular(y, 0)];
            var odd := ("a:" + hash(x)) + "\n" + "b";
            var gs: Files := map[odd := Regular(y, 0)];
            Text(hash, fs, ["a", "b"]) == Text(hash, gs, [odd])
  {
    var fs: Files := map["a" := Regular(x, 0), "b" := Regular(y, 0)];
    var odd := ("a:" + hash(x)) + "\n" + "b";
    var gs: Files := map[odd := Regular(y, 0)];
    assert ["a", "b"][1..] == ["b"] && ["b"][1..] == [] && [odd][1..] == [];
    assert "a"[0] != "b"[0];
    assert Text(hash, fs, []) == "" == Text(hash, gs, []);
    assert Text(hash, fs, ["b"]) == Line(hash, "b", y) + "\n" + "";
    assert Text(hash, gs, [odd]) == Line(hash, odd, y) + "\n" + "";
    assert "a" + ":" == "a:" && "b" + ":" == "b:";
    var first := "a:" + hash(x);
    assert Line(hash, "a", x) == first;
    assert Line(hash, odd, y) == (first + "\n" + "b:") + hash(y) by {
      assert (first + "\n" + "b") + ":" == first + "\n" + ("b" + ":");
    }
    assert Line(hash, "b", y) == "b:" + hash(y);
    assert first + "\n" + (("b:" + hash(y)) + "\n" + "") == ((first + "\n" + "b:") + hash(y)) + "\n" + "";
  }
}
