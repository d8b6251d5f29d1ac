/** pkg/contentstore: the content root over a file set, the scan of an unpacked
    bundle, the check of a bundle against its manifest, and the run-time measurement.

    A tree maps a slash-separated path to what lies there. Directories are entries,
    so that a manifest naming one is refused for the reason the gate gives. */
module ContentStore {
  import opened Text
  import Paths

  datatype File = File(path: string, sha256: string, size: int)

  datatype Entry = Regular(bytes: string) | Directory | Other

  type Tree = map<string, Entry>

  datatype ContentError = HashMismatch | UnmanifestedFile | MissingFile | AllowlistViolation | UnsafePath

  const DOMAIN := "arazu-content-root-v1\n"
  const NUL := '\0'

  function PathOf(f: File): string { f.path }

  /* ---------- the content root ---------- */

  function EncodeFile(f: File): string {
    f.path + [NUL] + (f.sha256 + [NUL] + (Decimal(f.size) + ['\n']))
  }

  function EncodeFiles(fs: seq<File>): string {
    if fs == [] then "" else EncodeFile(fs[0]) + EncodeFiles(fs[1..])
  }

  /** What is hashed for a list that is already in order. */
  function Stream(fs: seq<File>): string { DOMAIN + EncodeFiles(fs) }

  function ContentRoot(h: Hash, fs: seq<File>): string { h(Stream(SortBy(fs, PathOf))) }

  predicate NulFree(f: File) { NUL !in f.path && NUL !in f.sha256 }

  predicate AllNulFree(fs: seq<File>) { forall f :: f in fs ==> NulFree(f) }

  lemma {:induction false} EncodeAppend(fs: seq<File>, f: File)
    ensures EncodeFiles(fs + [f]) == EncodeFiles(fs) + EncodeFile(f)
  {
    if fs == [] {
      assert (fs + [f])[1..] == [];
    } else {
      assert (fs + [f])[1..] == fs[1..] + [f];
      EncodeAppend(fs[1..], f);
    }
  }

  lemma {:induction false} StreamStep(fs: seq<File>, i: nat)
    requires i < |fs|
    ensures Stream(fs[..i + 1]) == Stream(fs[..i]) + EncodeFile(fs[i])
  {
    assert fs[..i + 1] == fs[..i] + [fs[i]];
    EncodeAppend(fs[..i], fs[i]);
    assert DOMAIN + (EncodeFiles(fs[..i]) + EncodeFile(fs[i])) == (DOMAIN + EncodeFiles(fs[..i])) + EncodeFile(fs[i]);
  }

  lemma StreamEnds(fs: seq<File>)
    ensures Stream([]) == DOMAIN && Stream(fs[..|fs|]) == Stream(fs)
  {
    assert fs[..|fs|] == fs;
  }

  /** The hashing loop of ContentRoot. */
  method ComputeContentRoot(h: Hash, files: seq<File>) returns (root: string)
    ensures root == ContentRoot(h, files)
  {
    var sorted := SortBy(files, PathOf);
    StreamEnds(sorted);
    var written := DOMAIN;
    assert sorted[..0] == [];
    for i := 0 to |sorted|
      invariant written == Stream(sorted[..i])
    {
      StreamStep(sorted, i);
      written := written + EncodeFile(sorted[i]);
    }
    root := h(written);
  }

  lemma RecordOf(f: File)
    ensures EncodeFile(f) == f.path + "\0" + f.sha256 + "\0" + Decimal(f.size) + "\n"
  {
    var p, q, d := f.path, f.sha256, Decimal(f.size);
    assert p + "\0" + q + "\0" + d + "\n" == p + "\0" + (q + "\0" + (d + "\n"));
  }

  lemma SortedInit(fs: seq<File>, f: File)
    requires Sorted(fs + [f], PathOf)
    ensures SortBy(fs + [f], PathOf) == fs + [f] && SortBy(fs, PathOf) == fs
  {
    assert forall i :: 0 <= i < |fs| ==> (fs + [f])[i] == fs[i];
    SortOfSorted(fs + [f], PathOf);
    SortOfSorted(fs, PathOf);
  }

  /** What is hashed, as the identity for a hash shows it: the domain tag, then a record for
      each file in path order, `path NUL hash NUL size newline`. */
  lemma RootOfRecords(h: Hash, fs: seq<File>, f: File)
    requires Sorted(fs + [f], PathOf)
    ensures ContentRoot(h, fs + [f]) == h(ContentRoot(Itself, fs + [f]))
    ensures ContentRoot(Itself, fs + [f]) ==
            ContentRoot(Itself, fs) + (f.path + "\0" + f.sha256 + "\0" + Decimal(f.size) + "\n")
    ensures ContentRoot(Itself, []) == "arazu-content-root-v1\n"
  {
    SortedInit(fs, f);
    RecordOf(f);
    EncodeAppend(fs, f);
    Appended(DOMAIN, EncodeFiles(fs), EncodeFile(f));
    StreamEnds(fs);
  }

  lemma Appended(a: string, b: string, c: string)
    ensures a + (b + c) == (a + b) + c
  {
  }

  lemma Regroup(a: string, b: string, c: string, z: string)
    ensures a + (b + c) + z == a + (b + (c + z))
  {
  }

  /** One record can be cut off the front of a stream in only one way. */
  lemma DecodeFirst(f: File, g: File, x: string, y: string)
    requires NulFree(f) && NulFree(g)
    requires EncodeFile(f) + x == EncodeFile(g) + y
    ensures f == g && x == y
  {
    var size1, size2 := Decimal(f.size) + ['\n'], Decimal(g.size) + ['\n'];
    Regroup(f.path + [NUL], f.sha256 + [NUL], size1, x);
    Regroup(g.path + [NUL], g.sha256 + [NUL], size2, y);
    CutAtTerminator(NUL, f.path, g.path, f.sha256 + [NUL] + (size1 + x), g.sha256 + [NUL] + (size2 + y));
    CutAtTerminator(NUL, f.sha256, g.sha256, size1 + x, size2 + y);
    DecimalHasNo(f.size, '\n');
    DecimalHasNo(g.size, '\n');
    CutAtTerminator('\n', Decimal(f.size), Decimal(g.size), x, y);
    DecimalInjective(f.size, g.size);
  }

  lemma EncodeNonEmpty(fs: seq<File>)
    ensures EncodeFiles(fs) == "" <==> fs == []
  {
  }

  /** The stream is uniquely decodable. */
  lemma {:induction false} EncodeInjective(fs: seq<File>, gs: seq<File>)
    requires AllNulFree(fs) && AllNulFree(gs)
    requires EncodeFiles(fs) == EncodeFiles(gs)
    ensures fs == gs
  {
    EncodeNonEmpty(fs);
    EncodeNonEmpty(gs);
    if fs != [] && gs != [] {
      TailNulFree(fs);
      TailNulFree(gs);
      var x, y := EncodeFiles(fs[1..]), EncodeFiles(gs[1..]);
      DecodeFirst(fs[0], gs[0], x, y);
      assert x == y;
      EncodeInjective(fs[1..], gs[1..]);
      assert fs == [fs[0]] + fs[1..] && gs == [gs[0]] + gs[1..];
    }
  }

  lemma TailNulFree(fs: seq<File>)
    requires AllNulFree(fs) && fs != []
    ensures NulFree(fs[0]) && AllNulFree(fs[1..])
  {
  }

  /** The two streams whose digests a comparison of roots relies on. */
  ghost function Streams(fs: seq<File>, gs: seq<File>): set<string> {
    {Stream(SortBy(fs, PathOf)), Stream(SortBy(gs, PathOf))}
  }

  /** Equal roots bind the file sets: same paths, hashes and sizes, same multiplicities. */
  lemma RootBindsFiles(h: Hash, fs: seq<File>, gs: seq<File>)
    requires AllNulFree(fs) && AllNulFree(gs)
    requires CollisionFree(h, Streams(fs, gs))
    requires ContentRoot(h, fs) == ContentRoot(h, gs)
    ensures multiset(fs) == multiset(gs)
  {
    var s, t := SortBy(fs, PathOf), SortBy(gs, PathOf);
    assert Stream(s) == Stream(t);
    SameStreamSameRecords(s, t);
    forall f | f in s ensures f in fs { assert f in multiset(s); }
    forall g | g in t ensures g in gs { assert g in multiset(t); }
    EncodeInjective(s, t);
  }

  /** The root does not depend on the order the files are listed in, nor on which of
      the admissible sorts ran, as long as a path names one file. */
  lemma RootOrderIndependent(h: Hash, fs: seq<File>, gs: seq<File>, sorted: seq<File>)
    requires multiset(fs) == multiset(gs) && KeyDetermines(fs, PathOf)
    requires IsSortOf(sorted, gs, PathOf)
    ensures ContentRoot(h, fs) == h(Stream(sorted)) == ContentRoot(h, gs)
  {
    SortBySorted(fs, PathOf);
    SortBySorted(gs, PathOf);
    KeyDeterminesPermute(fs, SortBy(fs, PathOf), PathOf);
    SortedIsUnique(SortBy(fs, PathOf), SortBy(gs, PathOf), PathOf);
    SortedIsUnique(SortBy(fs, PathOf), sorted, PathOf);
  }

  /* ---------- which lists a root pins down ---------- */

  /** One record that hashes like two: the second is hidden in the hash of the first. */
  function Merged(f: File, g: File): File {
    File(f.path, f.sha256 + [NUL] + Decimal(f.size) + ['\n'] + g.path + [NUL] + g.sha256, g.size)
  }

  lemma MergedEncodes(f: File, g: File)
    ensures EncodeFile(Merged(f, g)) == EncodeFile(f) + EncodeFile(g)
  {
    var size, tail := Decimal(f.size) + ['\n'], [NUL] + (Decimal(g.size) + ['\n']);
    Flatten(f.path + [NUL], f.sha256 + [NUL], size, g.path + [NUL], g.sha256, tail);
    assert EncodeFile(f) == (f.path + [NUL]) + ((f.sha256 + [NUL]) + size);
    assert EncodeFile(g) == (g.path + [NUL]) + (g.sha256 + tail);
    assert Merged(f, g).sha256 == ((f.sha256 + [NUL]) + size) + ((g.path + [NUL]) + g.sha256);
    assert EncodeFile(Merged(f, g)) == (f.path + [NUL]) + (Merged(f, g).sha256 + tail);
  }

  lemma Flatten(a: string, b: string, c: string, d: string, e: string, z: string)
    ensures a + (((b + c) + (d + e)) + z) == (a + (b + c)) + (d + (e + z))
  {
  }

  lemma {:induction false} EncodeConcat(fs: seq<File>, gs: seq<File>)
    ensures EncodeFiles(fs + gs) == EncodeFiles(fs) + EncodeFiles(gs)
  {
    if fs == [] {
      assert fs + gs == gs;
    } else {
      assert (fs + gs)[1..] == fs[1..] + gs;
      EncodeConcat(fs[1..], gs);
    }
  }

  lemma EncodeShort(f: File, g: File)
    ensures EncodeFiles([f]) == EncodeFile(f) && EncodeFiles([f, g]) == EncodeFile(f) + EncodeFile(g)
  {
    assert [f][1..] == [] && [f, g][1..] == [g] && [g][1..] == [];
  }

  lemma MergedStaysSorted(s: seq<File>)
    requires Sorted(s, PathOf) && |s| >= 2
    ensures Sorted([Merged(s[0], s[1])] + s[2..], PathOf)
  {
    var twin := [Merged(s[0], s[1])] + s[2..];
    forall i, j | 0 <= i < j < |twin| ensures !Less(PathOf(twin[j]), PathOf(twin[i])) {
      assert twin[j] == s[j + 1];
      assert PathOf(twin[i]) == PathOf(if i == 0 then s[0] else s[i + 1]);
    }
  }

  /** Any two files can be replaced by one under the same root. */
  lemma PairGivesTwin(fs: seq<File>) returns (twin: seq<File>)
    requires |fs| >= 2
    ensures multiset(twin) != multiset(fs) && Stream(SortBy(twin, PathOf)) == Stream(SortBy(fs, PathOf))
  {
    var s := SortBy(fs, PathOf);
    SortBySorted(fs, PathOf);
    assert |s| == |multiset(s)| == |fs|;
    var m, rest := Merged(s[0], s[1]), s[2..];
    twin := [m] + rest;
    MergedStaysSorted(s);
    SortOfSorted(twin, PathOf);
    MergedEncodes(s[0], s[1]);
    EncodeShort(s[0], s[1]);
    EncodeShort(m, m);
    EncodeConcat([m], rest);
    EncodeConcat([s[0], s[1]], rest);
    assert s == [s[0], s[1]] + rest;
    assert |multiset(twin)| == |twin| == |fs| - 1;
  }

  lemma SameRecord(f: File, g: File)
    requires f.size == g.size && f.path + [NUL] + f.sha256 == g.path + [NUL] + g.sha256
    ensures EncodeFile(f) == EncodeFile(g)
  {
    var tail := [NUL] + (Decimal(f.size) + ['\n']);
    assert EncodeFile(f) == (f.path + [NUL] + f.sha256) + tail;
    assert EncodeFile(g) == (g.path + [NUL] + g.sha256) + tail;
  }

  /** A single file with a NUL in its path or hash can be split at it in another place. */
  lemma NulGivesTwin(f: File) returns (g: File)
    requires !NulFree(f)
    ensures g != f && EncodeFile(g) == EncodeFile(f)
  {
    if i :| 0 <= i < |f.path| && f.path[i] == NUL {
      var a, b := f.path[..i], f.path[i + 1..];
      g := File(a, b + [NUL] + f.sha256, f.size);
      assert f.path == a + [NUL] + b;
      assert (a + [NUL] + b) + [NUL] + f.sha256 == a + [NUL] + (b + [NUL] + f.sha256);
      assert |g.path| < |f.path|;
    } else {
      var i :| 0 <= i < |f.sha256| && f.sha256[i] == NUL;
      var a, b := f.sha256[..i], f.sha256[i + 1..];
      g := File(f.path + [NUL] + a, b, f.size);
      assert f.sha256 == a + [NUL] + b;
      assert f.path + [NUL] + (a + [NUL] + b) == (f.path + [NUL] + a) + [NUL] + b;
      assert |g.path| > |f.path|;
    }
    SameRecord(f, g);
  }

  function CountNul(s: string): nat {
    if s == "" then 0 else (if s[0] == NUL then 1 else 0) + CountNul(s[1..])
  }

  lemma {:induction false} CountNulConcat(a: string, b: string)
    ensures CountNul(a + b) == CountNul(a) + CountNul(b)
  {
    if a == "" {
      assert a + b == b;
    } else {
      assert (a + b)[1..] == a[1..] + b;
      CountNulConcat(a[1..], b);
    }
  }

  lemma {:induction false} CountNulZero(s: string)
    ensures CountNul(s) == 0 <==> NUL !in s
  {
    if s != "" {
      CountNulZero(s[1..]);
      assert s == [s[0]] + s[1..];
    }
  }

  lemma CountNulField(field: string, rest: string)
    ensures CountNul(field + [NUL] + rest) == CountNul(field) + 1 + CountNul(rest)
  {
    assert field + [NUL] + rest == field + ([NUL] + rest);
    CountNulConcat(field, [NUL] + rest);
    assert ([NUL] + rest)[1..] == rest;
  }

  /** A record holds its two separators and the NULs of its fields. */
  lemma NulsOfRecord(f: File)
    ensures CountNul(EncodeFile(f)) == 2 + CountNul(f.path) + CountNul(f.sha256)
  {
    var tail := Decimal(f.size) + ['\n'];
    DecimalHasNo(f.size, NUL);
    CountNulZero(tail);
    CountNulField(f.sha256, tail);
    CountNulField(f.path, f.sha256 + [NUL] + tail);
  }

  /** A list that hashes like one NUL-free file is that file. */
  lemma OneFileIsPinned(f: File, gs: seq<File>)
    requires NulFree(f) && EncodeFiles(gs) == EncodeFiles([f])
    ensures gs == [f]
  {
    assert [f][1..] == [] && EncodeFiles([f]) == EncodeFile(f);
    NulsOfRecord(f);
    CountNulZero(f.path);
    CountNulZero(f.sha256);
    EncodeNonEmpty(gs);
    EncodeNonEmpty([f]);
    NulsOfRecord(gs[0]);
    CountNulConcat(EncodeFile(gs[0]), EncodeFiles(gs[1..]));
    if gs[1..] != [] {
      NulsOfRecord(gs[1]);
      CountNulConcat(EncodeFile(gs[1]), EncodeFiles(gs[1..][1..]));
    }
    CountNulZero(gs[0].path);
    CountNulZero(gs[0].sha256);
    assert gs == [gs[0]];
    EncodeInjective(gs, [f]);
  }

  /** Barring collisions, the two lists share a root only if they are the same files. */
  ghost predicate ToldApart(h: Hash, fs: seq<File>, gs: seq<File>) {
    CollisionFree(h, Streams(fs, gs)) && ContentRoot(h, gs) == ContentRoot(h, fs) ==> multiset(gs) == multiset(fs)
  }

  ghost predicate PinnedDown(fs: seq<File>) { forall h: Hash, gs :: ToldApart(h, fs, gs) }

  /** The lists that no other list shares its root with: the empty one and a single NUL-free
      file. Every other list has a twin, NUL-free or not, so what a root pins down, it pins
      down among lists whose fields are known to hold no NUL (RootBindsFiles), contrary to
      the comment on ContentRoot. */
  lemma RootPinsDownIff(fs: seq<File>)
    ensures PinnedDown(fs) <==> |fs| == 0 || (|fs| == 1 && NulFree(fs[0]))
  {
    if |fs| == 0 || (|fs| == 1 && NulFree(fs[0])) {
      forall h: Hash, gs ensures ToldApart(h, fs, gs) {
        SmallListIsPinned(h, fs, gs);
      }
    } else {
      var gs := TwinOf(fs);
      NotToldApart(fs, gs);
    }
  }

  lemma NotToldApart(fs: seq<File>, gs: seq<File>)
    requires multiset(gs) != multiset(fs) && Stream(SortBy(gs, PathOf)) == Stream(SortBy(fs, PathOf))
    ensures !ToldApart(Itself, fs, gs)
  {
    var stream := Stream(SortBy(fs, PathOf));
    assert Streams(fs, gs) == {stream};
  }

  lemma TwinOf(fs: seq<File>) returns (gs: seq<File>)
    requires |fs| >= 2 || (|fs| == 1 && !NulFree(fs[0]))
    ensures multiset(gs) != multiset(fs) && Stream(SortBy(gs, PathOf)) == Stream(SortBy(fs, PathOf))
  {
    if |fs| >= 2 {
      gs := PairGivesTwin(fs);
    } else {
      var g := NulGivesTwin(fs[0]);
      gs := [g];
      SortOfSorted(fs, PathOf);
      SortOfSorted(gs, PathOf);
      assert fs == [fs[0]] && fs[1..] == gs[1..] == [];
      assert g in multiset(gs) && g !in multiset(fs);
    }
  }

  lemma SmallListIsPinned(h: Hash, fs: seq<File>, gs: seq<File>)
    requires |fs| == 0 || (|fs| == 1 && NulFree(fs[0]))
    ensures ToldApart(h, fs, gs)
  {
    if CollisionFree(h, Streams(fs, gs)) && ContentRoot(h, gs) == ContentRoot(h, fs) {
      SortOfSorted(fs, PathOf);
      SameStreamIsPinned(fs, gs);
    }
  }

  lemma SameStreamSameRecords(fs: seq<File>, gs: seq<File>)
    requires Stream(fs) == Stream(gs)
    ensures EncodeFiles(fs) == EncodeFiles(gs)
  {
    DomainCutsOff(EncodeFiles(fs));
    DomainCutsOff(EncodeFiles(gs));
  }

  lemma DomainCutsOff(records: string)
    ensures (DOMAIN + records)[|DOMAIN|..] == records
  {
  }

  lemma SameStreamIsPinned(fs: seq<File>, gs: seq<File>)
    requires |fs| == 0 || (|fs| == 1 && NulFree(fs[0]))
    requires Stream(SortBy(gs, PathOf)) == Stream(fs)
    ensures multiset(gs) == multiset(fs)
  {
    var s := SortBy(gs, PathOf);
    SameStreamSameRecords(s, fs);
    SmallRecordsArePinned(fs, s);
  }

  lemma SmallRecordsArePinned(fs: seq<File>, s: seq<File>)
    requires |fs| == 0 || (|fs| == 1 && NulFree(fs[0]))
    requires EncodeFiles(s) == EncodeFiles(fs)
    ensures s == fs
  {
    EncodeNonEmpty(s);
    if |fs| == 1 {
      assert fs == [fs[0]];
      OneFileIsPinned(fs[0], s);
    }
  }

  /* ---------- scanning and measuring a tree ---------- */

  ghost predicate AllRegular(t: Tree) { forall p :: p in t ==> !t[p].Other? }

  /** The manifest entry hashing a file at `p` produces. */
  function FileOf(h: Hash, p: string, bytes: string): File { File(p, h(bytes), |bytes|) }

  ghost predicate Holds(h: Hash, t: Tree, f: File) {
    && f.path in t && t[f.path].Regular?
    && f.sha256 == h(t[f.path].bytes) && f.size == |t[f.path].bytes|
  }

  /** Exactly the regular files, in path order. */
  ghost predicate IsScan(h: Hash, t: Tree, out: seq<File>) {
    StrictlySorted(out, PathOf) && forall f :: f in out <==> Holds(h, t, f)
  }

  /** ScanDir: the walk meets the entries in some order and refuses anything that is
      neither a directory nor a regular file. */
  method ScanDir(h: Hash, t: Tree) returns (r: Result<seq<File>, ContentError>)
    ensures r.Ok? <==> AllRegular(t)
    ensures r.Ok? ==> IsScan(h, t, r.value)
    ensures r.Err? ==> r.error == UnsafePath
  {
    var rest := t.Keys;
    var out: seq<File> := [];
    while rest != {}
      invariant rest <= t.Keys
      invariant forall p :: p in t && p !in rest ==> !t[p].Other?
      invariant forall f :: f in out <==> f.path !in rest && Holds(h, t, f)
      invariant DistinctKeys(out, PathOf)
    {
      var p :| p in rest;
      match t[p] {
        case Other => return Err(UnsafePath);
        case Directory =>
        case Regular(bytes) => out := out + [FileOf(h, p, bytes)];
      }
      rest := rest - {p};
    }
    SortedScan(h, t, out);
    r := Ok(SortBy(out, PathOf));
  }

  lemma SortedScan(h: Hash, t: Tree, out: seq<File>)
    requires DistinctKeys(out, PathOf)
    requires forall f :: f in out <==> Holds(h, t, f)
    ensures IsScan(h, t, SortBy(out, PathOf))
  {
    var s := SortBy(out, PathOf);
    SortBySorted(out, PathOf);
    DistinctKeysPermute(out, s, PathOf);
    SortedDistinctIsStrict(s, PathOf);
    forall f ensures f in s <==> f in out {
      assert f in s <==> f in multiset(s);
      assert f in out <==> f in multiset(out);
    }
  }

  lemma {:induction false} ScanExists(h: Hash, t: Tree)
    ensures exists out :: IsScan(h, t, out)
  {
    var out := Listing(h, t, t.Keys);
    SortedScan(h, t, out);
  }

  lemma {:induction false} Listing(h: Hash, t: Tree, ps: set<string>) returns (out: seq<File>)
    requires ps <= t.Keys
    ensures DistinctKeys(out, PathOf)
    ensures forall f :: f in out <==> f.path in ps && Holds(h, t, f)
    decreases |ps|
  {
    if ps == {} {
      out := [];
    } else {
      var p :| p in ps;
      out := Listing(h, t, ps - {p});
      if t[p].Regular? {
        out := out + [FileOf(h, p, t[p].bytes)];
      }
    }
  }

  ghost function Scan(h: Hash, t: Tree): (out: seq<File>)
    ensures IsScan(h, t, out)
  {
    ScanExists(h, t);
    var out :| IsScan(h, t, out);
    out
  }

  predicate IsBundleMetadata(p: string) { p == "manifest.json" || p == "manifest.sig" }

  function Payload(fs: seq<File>): seq<File> {
    if fs == [] then []
    else (if IsBundleMetadata(fs[0].path) then [] else [fs[0]]) + Payload(fs[1..])
  }

  lemma {:induction false} PayloadElements(fs: seq<File>)
    requires StrictlySorted(fs, PathOf)
    ensures forall f :: f in Payload(fs) <==> f in fs && !IsBundleMetadata(f.path)
    ensures StrictlySorted(Payload(fs), PathOf)
  {
    if fs != [] {
      PayloadElements(fs[1..]);
      assert fs == [fs[0]] + fs[1..];
    }
  }

  /** The measured payload of a tree: its regular files other than the manifest and its signatures. */
  ghost function MeasuredPayload(h: Hash, t: Tree): seq<File> { Payload(Scan(h, t)) }

  lemma MeasuredPayloadElements(h: Hash, t: Tree)
    ensures forall f :: f in MeasuredPayload(h, t) <==> Holds(h, t, f) && !IsBundleMetadata(f.path)
    ensures StrictlySorted(MeasuredPayload(h, t), PathOf) && DistinctKeys(MeasuredPayload(h, t), PathOf)
  {
    PayloadElements(Scan(h, t));
    StrictIsDistinct(MeasuredPayload(h, t), PathOf);
  }

  /** What a path listing is worth: a strictly sorted listing is fixed by its elements. */
  lemma ListingIsUnique(s: seq<File>, t: seq<File>)
    requires StrictlySorted(s, PathOf) && StrictlySorted(t, PathOf)
    requires forall f :: f in s <==> f in t
    ensures s == t
  {
    StrictIsDistinct(s, PathOf);
    StrictIsDistinct(t, PathOf);
    SameElementsPermute(s, t, PathOf);
    DistinctKeysPermute(s, s, PathOf);
    SortedIsUnique(s, t, PathOf);
  }

  method MeasureBundle(h: Hash, t: Tree) returns (r: Result<(seq<File>, string), ContentError>)
    ensures r.Ok? <==> AllRegular(t)
    ensures r.Ok? ==> r.value.0 == MeasuredPayload(h, t) && r.value.1 == ContentRoot(h, MeasuredPayload(h, t))
    ensures r.Ok? ==> forall f :: f in r.value.0 <==> Holds(h, t, f) && f.path !in {"manifest.json", "manifest.sig"}
    ensures r.Err? ==> r.error == UnsafePath
  {
    var scanned := ScanDir(h, t);
    if scanned.Err? {
      return Err(scanned.error);
    }
    var all := scanned.value;
    ListingIsUnique(all, Scan(h, t));
    var payload: seq<File> := [];
    for i := 0 to |all|
      invariant payload + Payload(all[i..]) == Payload(all)
    {
      assert all[i..][1..] == all[i + 1..];
      if !IsBundleMetadata(all[i].path) {
        payload := payload + [all[i]];
      }
    }
    MeasuredPayloadElements(h, t);
    var root := ComputeContentRoot(h, payload);
    r := Ok((payload, root));
  }

  /* ---------- checking a tree against a manifest ---------- */

  /** os.Lstat below the bundle root. */
  function Lookup(t: Tree, p: string): Option<Entry> {
    if p == "." then Some(Directory) else if p in t then Some(t[p]) else None
  }

  function PathError(f: File, allow: seq<string>): Option<ContentError> {
    match Paths.CheckPath(f.path, allow)
    case Allowed => None
    case UnsafePath => Some(UnsafePath)
    case AllowlistViolation => Some(AllowlistViolation)
  }

  function PresenceError(t: Tree, f: File): Option<ContentError> {
    match Lookup(t, f.path)
    case None => Some(MissingFile)
    case Some(Regular(_)) => None
    case Some(_) => Some(ContentError.UnsafePath)
  }

  function FirstPathError(fs: seq<File>, allow: seq<string>): Option<ContentError> {
    if fs == [] then None
    else if PathError(fs[0], allow).Some? then PathError(fs[0], allow)
    else FirstPathError(fs[1..], allow)
  }

  function FirstPresenceError(t: Tree, fs: seq<File>): Option<ContentError> {
    if fs == [] then None
    else if PresenceError(t, fs[0]).Some? then PresenceError(t, fs[0])
    else FirstPresenceError(t, fs[1..])
  }

  ghost predicate Listed(fs: seq<File>, p: string) { exists f :: f in fs && f.path == p }

  /** The store is exactly what the manifest says, metadata aside. */
  ghost predicate Conforms(h: Hash, t: Tree, fs: seq<File>, allow: seq<string>) {
    && (forall f :: f in fs ==> Paths.CheckPath(f.path, allow).Allowed? && f.path != "." && Holds(h, t, f))
    && AllRegular(t)
    && (forall p :: p in t && t[p].Regular? && !IsBundleMetadata(p) ==> Listed(fs, p))
  }

  /** The reason the gate gives: path safety, then the tree scan, then presence, then
      content, then anything present but unlisted. */
  ghost function Verdict(h: Hash, t: Tree, fs: seq<File>, allow: seq<string>): Option<ContentError> {
    if FirstPathError(fs, allow).Some? then FirstPathError(fs, allow)
    else if !AllRegular(t) then Some(UnsafePath)
    else if FirstPresenceError(t, fs).Some? then FirstPresenceError(t, fs)
    else if exists f :: f in fs && !Holds(h, t, f) then Some(HashMismatch)
    else if exists p :: p in t && t[p].Regular? && !IsBundleMetadata(p) && !Listed(fs, p) then Some(UnmanifestedFile)
    else None
  }

  lemma {:induction false} FirstPathErrorNone(fs: seq<File>, allow: seq<string>)
    ensures FirstPathError(fs, allow).None? <==> forall f :: f in fs ==> PathError(f, allow).None?
  {
    if fs != [] {
      FirstPathErrorNone(fs[1..], allow);
      assert fs == [fs[0]] + fs[1..];
    }
  }

  lemma {:induction false} FirstPresenceErrorNone(t: Tree, fs: seq<File>)
    ensures FirstPresenceError(t, fs).None? <==> forall f :: f in fs ==> PresenceError(t, f).None?
  {
    if fs != [] {
      FirstPresenceErrorNone(t, fs[1..]);
      assert fs == [fs[0]] + fs[1..];
    }
  }

  /** The ordered checks accept exactly the conforming stores. */
  lemma VerdictNoneIffConforms(h: Hash, t: Tree, fs: seq<File>, allow: seq<string>)
    ensures Verdict(h, t, fs, allow).None? <==> Conforms(h, t, fs, allow)
  {
    FirstPathErrorNone(fs, allow);
    FirstPresenceErrorNone(t, fs);
  }

  ghost predicate AllAdmitted(fs: seq<File>, allow: seq<string>) {
    forall f :: f in fs ==> Paths.Admitted(f.path, allow)
  }

  ghost predicate IsThere(t: Tree, f: File) { f.path != "." && f.path in t && t[f.path].Regular? }

  ghost predicate AllThere(t: Tree, fs: seq<File>) { forall f :: f in fs ==> IsThere(t, f) }

  ghost predicate AllMatch(h: Hash, t: Tree, fs: seq<File>)
    requires AllThere(t, fs)
  {
    forall f :: f in fs ==> h(t[f.path].bytes) == f.sha256 && |t[f.path].bytes| == f.size
  }

  ghost predicate NothingElse(t: Tree, fs: seq<File>) {
    forall p :: p in t && t[p].Regular? && p !in {"manifest.json", "manifest.sig"} ==>
      exists f :: f in fs && f.path == p
  }

  /** The first file whose path is not admitted is what a failure of the path check names. */
  lemma {:induction false} FirstPathIs(fs: seq<File>, allow: seq<string>, i: nat)
    requires i < |fs| && AllAdmitted(fs[..i], allow) && !Paths.Admitted(fs[i].path, allow)
    ensures FirstPathError(fs, allow) ==
            Some(if Paths.SafePath(fs[i].path) then AllowlistViolation else UnsafePath)
  {
    Paths.CheckPathIff(fs[0].path, allow);
    if i > 0 {
      assert fs[0] == fs[..i][0] && fs[1..][..i - 1] == fs[..i][1..];
      FirstPathIs(fs[1..], allow, i - 1);
    }
  }

  lemma {:induction false} FirstAbsentIs(t: Tree, fs: seq<File>, i: nat)
    requires i < |fs| && AllThere(t, fs[..i]) && !IsThere(t, fs[i])
    ensures FirstPresenceError(t, fs) ==
            Some(if fs[i].path == "." || fs[i].path in t then ContentError.UnsafePath else MissingFile)
  {
    if i > 0 {
      assert fs[0] == fs[..i][0] && fs[1..][..i - 1] == fs[..i][1..];
      assert IsThere(t, fs[0]);
      FirstAbsentIs(t, fs[1..], i - 1);
    }
  }

  /** Which reason a store is refused for: that of the first path that is not admitted; then
      anything that is neither file nor directory; then the first file that is not there, or
      not a file; then any that differs; then any that is not listed. */
  lemma VerdictReasons(h: Hash, t: Tree, fs: seq<File>, allow: seq<string>)
    ensures var v := Verdict(h, t, fs, allow);
            && (forall i :: 0 <= i < |fs| && AllAdmitted(fs[..i], allow) && !Paths.Admitted(fs[i].path, allow) ==>
                  v == Some(if Paths.SafePath(fs[i].path) then AllowlistViolation else UnsafePath))
            && (AllAdmitted(fs, allow) ==>
                  && (!AllRegular(t) ==> v == Some(UnsafePath))
                  && (AllRegular(t) ==> forall i :: 0 <= i < |fs| && AllThere(t, fs[..i]) && !IsThere(t, fs[i]) ==>
                        v == Some(if fs[i].path == "." || fs[i].path in t then UnsafePath else MissingFile))
                  && (AllRegular(t) && AllThere(t, fs) ==>
                        v == if !AllMatch(h, t, fs) then Some(HashMismatch)
                             else if !NothingElse(t, fs) then Some(UnmanifestedFile) else None))
            && (v.None? <==>
                  AllAdmitted(fs, allow) && AllRegular(t) && AllThere(t, fs) && AllMatch(h, t, fs) && NothingElse(t, fs))
  {
    FirstPathErrorNone(fs, allow);
    FirstPresenceErrorNone(t, fs);
    forall f | f in fs ensures PathError(f, allow).None? <==> Paths.Admitted(f.path, allow) {
      Paths.CheckPathIff(f.path, allow);
    }
    forall i | 0 <= i < |fs| && AllAdmitted(fs[..i], allow) && !Paths.Admitted(fs[i].path, allow)
      ensures FirstPathError(fs, allow) ==
              Some(if Paths.SafePath(fs[i].path) then AllowlistViolation else UnsafePath)
    {
      FirstPathIs(fs, allow, i);
    }
    forall i | 0 <= i < |fs| && AllThere(t, fs[..i]) && !IsThere(t, fs[i])
      ensures FirstPresenceError(t, fs) ==
              Some(if fs[i].path == "." || fs[i].path in t then ContentError.UnsafePath else MissingFile)
    {
      FirstAbsentIs(t, fs, i);
    }
  }

  method CheckPaths(files: seq<File>, allow: seq<string>) returns (r: Option<ContentError>)
    ensures r == FirstPathError(files, allow)
  {
    for i := 0 to |files|
      invariant FirstPathError(files, allow) == FirstPathError(files[i..], allow)
    {
      assert files[i..][1..] == files[i + 1..];
      var e := PathError(files[i], allow);
      if e.Some? {
        return e;
      }
    }
    r := None;
  }

  method CheckPresence(t: Tree, files: seq<File>) returns (r: Option<ContentError>)
    ensures r == FirstPresenceError(t, files)
  {
    for i := 0 to |files|
      invariant FirstPresenceError(t, files) == FirstPresenceError(t, files[i..])
    {
      assert files[i..][1..] == files[i + 1..];
      var e := PresenceError(t, files[i]);
      if e.Some? {
        return e;
      }
    }
    r := None;
  }

  method CheckContents(h: Hash, t: Tree, files: seq<File>) returns (ok: bool)
    requires forall f :: f in files ==> PresenceError(t, f).None?
    ensures ok <==> forall f :: f in files ==> Holds(h, t, f)
  {
    for i := 0 to |files|
      invariant forall k :: 0 <= k < i ==> Holds(h, t, files[k])
    {
      assert PresenceError(t, files[i]).None?;
      var bytes := t[files[i].path].bytes;
      if h(bytes) != files[i].sha256 || |bytes| != files[i].size {
        assert files[i] in files && !Holds(h, t, files[i]);
        return false;
      }
    }
    ok := true;
  }

  method CheckListed(files: seq<File>, present: seq<File>) returns (ok: bool)
    ensures ok <==> forall f :: f in present ==> IsBundleMetadata(f.path) || Listed(files, f.path)
  {
    var listed: set<string> := {};
    for i := 0 to |files|
      invariant forall p :: p in listed <==> Listed(files[..i], p)
    {
      assert files[..i + 1] == files[..i] + [files[i]];
      listed := listed + {files[i].path};
    }
    assert files[..|files|] == files;
    for i := 0 to |present|
      invariant forall k :: 0 <= k < i ==> IsBundleMetadata(present[k].path) || present[k].path in listed
    {
      if !IsBundleMetadata(present[i].path) && present[i].path !in listed {
        assert present[i] in present;
        return false;
      }
    }
    ok := true;
  }

  /** VerifyAgainst: the answer is the reason of the first check that fails, and there is
      none exactly when the store conforms. */
  method VerifyAgainst(h: Hash, t: Tree, files: seq<File>, allow: seq<string>) returns (r: Option<ContentError>)
    ensures r == Verdict(h, t, files, allow)
    ensures r.None? <==> Conforms(h, t, files, allow)
  {
    VerdictNoneIffConforms(h, t, files, allow);
    var e := CheckPaths(files, allow);
    if e.Some? {
      return e;
    }
    var scanned := ScanDir(h, t);
    if scanned.Err? {
      return Some(scanned.error);
    }
    e := CheckPresence(t, files);
    if e.Some? {
      return e;
    }
    FirstPresenceErrorNone(t, files);
    var matching := CheckContents(h, t, files);
    if !matching {
      return Some(HashMismatch);
    }
    var listed := CheckListed(files, scanned.value);
    PresentListed(h, t, files, scanned.value);
    r := if listed then None else Some(UnmanifestedFile);
  }

  lemma PresentListed(h: Hash, t: Tree, fs: seq<File>, present: seq<File>)
    requires IsScan(h, t, present)
    ensures (forall f :: f in present ==> IsBundleMetadata(f.path) || Listed(fs, f.path)) <==>
            (forall p :: p in t && t[p].Regular? && !IsBundleMetadata(p) ==> Listed(fs, p))
  {
    forall p | p in t && t[p].Regular? ensures FileOf(h, p, t[p].bytes) in present {
      assert Holds(h, t, FileOf(h, p, t[p].bytes));
    }
    forall f | f in present ensures f.path in t && t[f.path].Regular? {
      assert Holds(h, t, f);
    }
  }

  /* ---------- the gate and the measurement agree ---------- */

  ghost predicate NoMetadataListed(fs: seq<File>) { forall f :: f in fs ==> !IsBundleMetadata(f.path) }

  /** If a store conforms to a manifest, measuring it finds the manifest's files, each
      once, exactly when the manifest repeats no path and lists no bundle metadata. */
  lemma ConformingPayloadIff(h: Hash, t: Tree, fs: seq<File>, allow: seq<string>)
    requires Conforms(h, t, fs, allow)
    ensures multiset(MeasuredPayload(h, t)) == multiset(fs) <==> DistinctKeys(fs, PathOf) && NoMetadataListed(fs)
  {
    var payload := MeasuredPayload(h, t);
    MeasuredPayloadElements(h, t);
    if multiset(payload) == multiset(fs) {
      DistinctKeysPermute(payload, fs, PathOf);
      forall f | f in fs ensures !IsBundleMetadata(f.path) {
        assert f in multiset(payload);
      }
    } else if DistinctKeys(fs, PathOf) && NoMetadataListed(fs) {
      forall f ensures f in payload <==> f in fs {
        if f in payload {
          assert Listed(fs, f.path);
        }
      }
      SameElementsPermute(payload, fs, PathOf);
    }
  }

  /** The gate publishes the root over the manifest; the run re-measures the tree. They
      coincide exactly under the same condition. */
  lemma PublishedRootIsMeasuredRootIff(h: Hash, t: Tree, fs: seq<File>, allow: seq<string>)
    requires Conforms(h, t, fs, allow) && AllNulFree(fs)
    requires CollisionFree(h, Streams(fs, MeasuredPayload(h, t)))
    requires AllNulFree(MeasuredPayload(h, t))
    ensures ContentRoot(h, fs) == ContentRoot(h, MeasuredPayload(h, t))
            <==> DistinctKeys(fs, PathOf) && NoMetadataListed(fs)
  {
    var payload := MeasuredPayload(h, t);
    ConformingPayloadIff(h, t, fs, allow);
    if DistinctKeys(fs, PathOf) && NoMetadataListed(fs) {
      DistinctKeysPermute(fs, fs, PathOf);
      SortBySorted(payload, PathOf);
      RootOrderIndependent(h, fs, payload, SortBy(payload, PathOf));
    } else if ContentRoot(h, fs) == ContentRoot(h, payload) {
      RootBindsFiles(h, fs, payload);
    }
  }

  lemma TwiceListedConforms(h: Hash, p: string, bytes: string, allow: seq<string>)
    requires Paths.CheckPath(p, allow).Allowed? && p != "."
    ensures Conforms(h, map[p := Regular(bytes)], [FileOf(h, p, bytes), FileOf(h, p, bytes)], allow)
  {
    var fs := [FileOf(h, p, bytes), FileOf(h, p, bytes)];
    assert fs[0] in fs && fs[0].path == p;
  }

  lemma TwiceListedDiffers(h: Hash, p: string, bytes: string, allow: seq<string>)
    requires Paths.CheckPath(p, allow).Allowed? && p != "."
    requires NulFree(FileOf(h, p, bytes))
    requires var t, fs := map[p := Regular(bytes)], [FileOf(h, p, bytes), FileOf(h, p, bytes)];
             CollisionFree(h, Streams(fs, MeasuredPayload(h, t)))
    ensures var t, fs := map[p := Regular(bytes)], [FileOf(h, p, bytes), FileOf(h, p, bytes)];
            ContentRoot(h, fs) != ContentRoot(h, MeasuredPayload(h, t))
  {
    var t, fs := map[p := Regular(bytes)], [FileOf(h, p, bytes), FileOf(h, p, bytes)];
    TwiceListedConforms(h, p, bytes, allow);
    MeasuredPayloadElements(h, t);
    assert PathOf(fs[0]) == PathOf(fs[1]);
    assert !DistinctKeys(fs, PathOf);
    PublishedRootIsMeasuredRootIff(h, t, fs, allow);
  }

  /** A manifest that lists a path twice, which nothing rejects: the gate accepts the store
      and publishes a root that no measurement of it gives. */
  lemma RepeatedPathMovesTheRoot(t: Tree, fs: seq<File>)
    requires t == map["content/a" := Regular("x")]
    requires fs == [FileOf(Itself, "content/a", "x"), FileOf(Itself, "content/a", "x")]
    ensures Conforms(Itself, t, fs, ["content/"])
    ensures ContentRoot(Itself, fs) != ContentRoot(Itself, MeasuredPayload(Itself, t))
  {
    ContentAIsAllowed();
    TwiceListedConforms(Itself, "content/a", "x", ["content/"]);
    TwiceListedDiffers(Itself, "content/a", "x", ["content/"]);
  }

  lemma SplitContentA()
    ensures Paths.Split("content/a") == ["content", "a"]
  {
    Paths.SplitPlain("a");
    Paths.SplitFirst("content", "a");
    assert "content" + "/" + "a" == "content/a";
  }

  lemma ContentAIsAllowed()
    ensures Paths.CheckPath("content/a", ["content/"]).Allowed?
  {
    SplitContentA();
    Paths.ProperIsSafe("content/a");
    assert Paths.HasPrefix("content/a", ["content/"][0]);
  }

  /* ---------- what a root says about the bytes ---------- */

  /** The bytes of the regular, non-metadata files of a tree. */
  ghost function PayloadBytes(t: Tree): map<string, string> {
    map p | p in t && t[p].Regular? && !IsBundleMetadata(p) :: t[p].bytes
  }

  ghost predicate NulFreeTree(h: Hash, t: Tree) {
    forall p :: p in t && t[p].Regular? ==> NUL !in p && NUL !in h(t[p].bytes)
  }

  /** The messages hashed while measuring two trees. */
  ghost function MeasuredMessages(h: Hash, t: Tree, u: Tree): set<string> {
    Streams(MeasuredPayload(h, t), MeasuredPayload(h, u)) + PayloadBytes(t).Values + PayloadBytes(u).Values
  }

  lemma NulFreePayload(h: Hash, t: Tree)
    requires NulFreeTree(h, t)
    ensures AllNulFree(MeasuredPayload(h, t))
  {
    MeasuredPayloadElements(h, t);
  }

  /** Two trees measure to the same root exactly when they carry the same payload bytes. */
  lemma SameRootIffSameBytes(h: Hash, t: Tree, u: Tree)
    requires NulFreeTree(h, t) && NulFreeTree(h, u)
    requires CollisionFree(h, MeasuredMessages(h, t, u))
    ensures ContentRoot(h, MeasuredPayload(h, t)) == ContentRoot(h, MeasuredPayload(h, u))
            <==> PayloadBytes(t) == PayloadBytes(u)
  {
    var ft, fu := MeasuredPayload(h, t), MeasuredPayload(h, u);
    MeasuredPayloadElements(h, t);
    MeasuredPayloadElements(h, u);
    NulFreePayload(h, t);
    NulFreePayload(h, u);
    if ContentRoot(h, ft) == ContentRoot(h, fu) {
      RootBindsFiles(h, ft, fu);
      SameFilesSameBytes(h, t, u);
    } else if PayloadBytes(t) == PayloadBytes(u) {
      SameBytesSameFiles(h, t, u);
    }
  }

  lemma SameBytesSameFiles(h: Hash, t: Tree, u: Tree)
    requires PayloadBytes(t) == PayloadBytes(u)
    ensures MeasuredPayload(h, t) == MeasuredPayload(h, u)
  {
    var ft, fu := MeasuredPayload(h, t), MeasuredPayload(h, u);
    MeasuredPayloadElements(h, t);
    MeasuredPayloadElements(h, u);
    forall f ensures f in ft <==> f in fu {
      if f.path in PayloadBytes(t) {
        assert PayloadBytes(t)[f.path] == PayloadBytes(u)[f.path];
      }
      assert f in ft ==> f.path in PayloadBytes(t);
      assert f in fu ==> f.path in PayloadBytes(u);
    }
    ListingIsUnique(ft, fu);
  }

  lemma SameFilesSameBytes(h: Hash, t: Tree, u: Tree)
    requires multiset(MeasuredPayload(h, t)) == multiset(MeasuredPayload(h, u))
    requires CollisionFree(h, PayloadBytes(t).Values + PayloadBytes(u).Values)
    ensures PayloadBytes(t) == PayloadBytes(u)
  {
    MeasuredPayloadElements(h, t);
    MeasuredPayloadElements(h, u);
    var bt, bu := PayloadBytes(t), PayloadBytes(u);
    forall p ensures p in bt ==> p in bu && bt[p] == bu[p] {
      if p in bt {
        PayloadMoves(h, t, u, p);
      }
    }
    forall p ensures p in bu ==> p in bt {
      if p in bu {
        PayloadMoves(h, u, t, p);
      }
    }
  }

  lemma PayloadMoves(h: Hash, t: Tree, u: Tree, p: string)
    requires multiset(MeasuredPayload(h, t)) == multiset(MeasuredPayload(h, u))
    requires CollisionFree(h, PayloadBytes(t).Values + PayloadBytes(u).Values)
    requires p in PayloadBytes(t)
    ensures p in PayloadBytes(u) && PayloadBytes(u)[p] == PayloadBytes(t)[p]
  {
    MeasuredPayloadElements(h, t);
    MeasuredPayloadElements(h, u);
    var f := FileOf(h, p, t[p].bytes);
    assert f in MeasuredPayload(h, t);
    assert f in multiset(MeasuredPayload(h, u));
    assert Holds(h, u, f);
    assert PayloadBytes(t)[p] in PayloadBytes(t).Values && PayloadBytes(u)[p] in PayloadBytes(u).Values;
  }
}
