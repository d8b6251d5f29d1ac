/** pkg/dossier: the staged emitter and the verifier that re-derives what it wrote.

    The emitter is run with a budget of file-system steps, after which the process is
    gone: every place it can stop is a budget. */
module Dossier {
  import opened Text
  import opened ContentStore
  import Paths
  import Gate

  const ARTIFACTS := "artifacts"
  const DECISION := "decision.json"

  /** The JSON form of a decision; `dec` is the strict decoder, which reads the first value. */
  datatype Form = Form(enc: Gate.Decision -> string, dec: string -> Option<Gate.Decision>, h: Hash)

  /* ---------- the verifier ---------- */

  datatype Outcome = Verified | UnsupportedClaim | NotSelfContained | Unreadable

  datatype Check = Check(name: string, ok: bool)

  datatype Report = Report(outcome: Outcome, checks: seq<Check>, problems: seq<string>)

  function Add(r: Report, name: string): (added: Report)
    ensures added.checks != [] && (AsReported(r) ==> AsReported(added))
  {
    r.(checks := r.checks + [Check(name, true)])
  }

  function Fail(r: Report, name: string): (failed: Report)
    ensures failed.checks != [] && (AsReported(r) ==> AsReported(failed))
  {
    var failed := r.(checks := r.checks + [Check(name, false)], problems := r.problems + [name]);
    assert failed.checks[|r.checks|] == Check(name, false);
    failed
  }

  /** There is a problem exactly if some check was not passed. */
  ghost predicate AsReported(r: Report) { r.problems == [] <==> AllPassed(r.checks) }

  ghost predicate AllPassed(checks: seq<Check>) { forall c :: c in checks ==> c.ok }

  function Done(r: Report): Report {
    if r.problems != [] && r.outcome.Verified? then r.(outcome := UnsupportedClaim) else r
  }

  function BytesAt(t: Tree, p: string): Option<string> {
    if p in t && t[p].Regular? then Some(t[p].bytes) else None
  }

  predicate Escapes(p: string) { Paths.HasPrefix(p, "/") || Contains(p, "..") }

  /** Relative, present, and hashing to what was recorded. */
  predicate ArtifactHolds(h: Hash, t: Tree, a: Gate.Artifact) {
    !Escapes(a.path) && BytesAt(t, Paths.Clean(a.path)).Some? && h(BytesAt(t, Paths.Clean(a.path)).value) == a.sha256
  }

  predicate CoveredPath(t: Tree, p: string) { BytesAt(t, p).Some? && !IsBundleMetadata(p) }

  function ReadDecision(f: Form, t: Tree): Option<Gate.Decision> {
    match BytesAt(t, DECISION)
    case None => None
    case Some(raw) => f.dec(raw)
  }

  /** Every machine-checkable claim of `d`, against the bytes in the directory. */
  ghost predicate ClaimsHold(h: Hash, t: Tree, d: Gate.Decision, expectRoot: string) {
    && Gate.Supported(d)
    && (forall a :: a in d.artifacts ==> ArtifactHolds(h, t, a) && CoveredPath(t, a.path))
    && AllRegular(t)
    && (expectRoot != "" ==> ContentRoot(h, MeasuredPayload(h, t)) == expectRoot)
    && CoveredPath(t, DECISION)
  }

  ghost function OutcomeOf(f: Form, t: Tree, expectRoot: string): Outcome {
    match ReadDecision(f, t)
    case None => Unreadable
    case Some(d) =>
      if d.artifacts == [] then NotSelfContained
      else if ClaimsHold(f.h, t, d, expectRoot) then Verified
      else UnsupportedClaim
  }

  /** Verify. The comment that Problems is empty iff the outcome is Verified misses one
      case, spelled out in the last clause. */
  method Verify(f: Form, t: Tree, expectRoot: string) returns (r: Report)
    ensures r.outcome == OutcomeOf(f, t, expectRoot)
    ensures r.problems == [] <==>
            r.outcome.Verified? ||
            (ReadDecision(f, t).Some? && ReadDecision(f, t).value.artifacts == [] &&
                Gate.Supported(ReadDecision(f, t).value))
    ensures r.outcome.Verified? <==> r.checks != [] && AllPassed(r.checks)
  {
    var read := ReadDecision(f, t);
    if read.None? {
      return Report(Unreadable, [], ["unreadable"]);
    }
    var d := read.value;
    r := Add(Report(Verified, [], []), "decision parses");
    var problems := Gate.Validate(d);
    if problems != [] {
      r := Fail(r, "decision is internally consistent");
    } else {
      r := Add(r, "decision is internally consistent");
    }
    if d.artifacts == [] {
      r := r.(outcome := NotSelfContained, checks := r.checks + [Check("carries its artifacts", false)]);
      return;
    }
    r := CheckClaims(f, t, d, expectRoot, r);
  }

  /** The claims that are about the directory: its artifacts, its root, and what the root covers. */
  method CheckClaims(f: Form, t: Tree, d: Gate.Decision, expectRoot: string, before: Report) returns (r: Report)
    requires before.outcome.Verified? && AsReported(before) && before.checks != []
    requires before.problems == [] <==> Gate.Supported(d)
    ensures r.outcome == if ClaimsHold(f.h, t, d, expectRoot) then Verified else UnsupportedClaim
    ensures r.problems == [] <==> r.outcome.Verified?
    ensures AsReported(r) && r.checks != []
  {
    r := CheckArtifacts(f.h, t, d, before);
    var measured := MeasureBundle(f.h, t);
    if measured.Err? {
      r := Done(Fail(r, "content root recomputes"));
      return;
    }
    var (files, root) := measured.value;
    if expectRoot == "" {
      r := Add(r, "content root recomputes");
    } else if root != expectRoot {
      r := Fail(r, "content root matches the seal");
    } else {
      r := Add(r, "content root matches the seal");
    }
    var covered := CheckCoverage(f.h, t, files, d);
    if covered {
      r := Add(r, "measured root covers the evidence");
    } else {
      r := Fail(r, "measured root covers the evidence");
    }
    r := Done(r);
  }

  method CheckArtifacts(h: Hash, t: Tree, d: Gate.Decision, before: Report) returns (r: Report)
    requires before.outcome.Verified? && AsReported(before) && before.checks != []
    ensures r.outcome.Verified? && AsReported(r) && r.checks != []
    ensures r.problems == [] <==> before.problems == [] && forall a :: a in d.artifacts ==> ArtifactHolds(h, t, a)
  {
    r := before;
    for i := 0 to |d.artifacts|
      invariant r.outcome.Verified? && AsReported(r) && r.checks != []
      invariant r.problems == [] <==>
                (before.problems == [] && forall k :: 0 <= k < i ==> ArtifactHolds(h, t, d.artifacts[k]))
    {
      if ArtifactHolds(h, t, d.artifacts[i]) {
        r := Add(r, "artifact " + d.artifacts[i].role);
      } else {
        r := Fail(r, "artifact " + d.artifacts[i].role);
      }
    }
  }

  /** The case the comment misses: a supported decision that records no artifacts is not
      self-contained, and no problem is listed. */
  lemma NothingRecordedIsNoProblem() returns (f: Form, t: Tree, d: Gate.Decision)
    ensures ReadDecision(f, t) == Some(d) && d.artifacts == [] && Gate.Supported(d)
    ensures forall expectRoot :: OutcomeOf(f, t, expectRoot).NotSelfContained?
  {
    var stage := Gate.StageResult("revert-to-attribute", Gate.Passed, "", ["evidence"]);
    d := Gate.Decision("case", "candidate", Gate.Accept, "", [stage], ["limits"], [], []);
    assert !IsSpace("evidence"[0]) && !IsSpace("limits"[0]);
    assert !Blank(stage.evidence[0]) && !Blank(d.notProven[0]);
    var only := d;
    f := Form(_ => "", _ => Some(only), Itself);
    t := map[DECISION := Regular("")];
  }

  method CheckCoverage(h: Hash, t: Tree, files: seq<File>, d: Gate.Decision) returns (ok: bool)
    requires files == MeasuredPayload(h, t)
    ensures ok <==> CoveredPath(t, DECISION) && forall a :: a in d.artifacts ==> CoveredPath(t, a.path)
  {
    var covered: set<string> := {};
    for i := 0 to |files|
      invariant covered == set k | 0 <= k < i :: files[k].path
    {
      covered := covered + {files[i].path};
    }
    CoveredPaths(h, t, covered);
    ok := DECISION in covered;
    for i := 0 to |d.artifacts|
      invariant ok <==> DECISION in covered && forall k :: 0 <= k < i ==> d.artifacts[k].path in covered
    {
      if d.artifacts[i].path !in covered {
        ok := false;
      }
    }
    assert ok <==> DECISION in covered && forall a :: a in d.artifacts ==> a.path in covered;
  }

  lemma CoveredPaths(h: Hash, t: Tree, covered: set<string>)
    requires covered == set k | 0 <= k < |MeasuredPayload(h, t)| :: MeasuredPayload(h, t)[k].path
    ensures forall p :: p in covered <==> CoveredPath(t, p)
  {
    var files := MeasuredPayload(h, t);
    MeasuredPayloadElements(h, t);
    forall p ensures p in covered <==> CoveredPath(t, p) {
      if p in covered {
        var k :| 0 <= k < |files| && files[k].path == p;
        assert files[k] in files;
      }
      if CoveredPath(t, p) {
        assert FileOf(h, p, t[p].bytes) in files;
      }
    }
  }

  /* ---------- what each answer means ---------- */

  ghost predicate Readable(f: Form, t: Tree) {
    "decision.json" in t && t["decision.json"].Regular? && f.dec(t["decision.json"].bytes).Some?
  }

  /** The path names no file of the directory, or one that hashes to something else. */
  ghost predicate ArtifactFails(h: Hash, t: Tree, a: Gate.Artifact) {
    || "/" <= a.path || Contains(a.path, "..")
    || Paths.Clean(a.path) !in t || !t[Paths.Clean(a.path)].Regular?
    || h(t[Paths.Clean(a.path)].bytes) != a.sha256
  }

  /** The path is not among the files that are measured. */
  ghost predicate Uncovered(t: Tree, p: string) {
    p !in t || !t[p].Regular? || p in {"manifest.json", "manifest.sig"}
  }

  /** Some claim of the decision fails: its stages do not support it, an artifact is missing,
      outside or different, something is neither file nor directory, the root is another one,
      or a file it rests on is not measured. */
  ghost predicate SomeClaimFails(h: Hash, t: Tree, d: Gate.Decision, expectRoot: string) {
    || !Gate.Supported(d)
    || (exists a :: a in d.artifacts && (ArtifactFails(h, t, a) || Uncovered(t, a.path)))
    || (exists p :: p in t && t[p].Other?)
    || (expectRoot != "" && ContentRoot(h, MeasuredPayload(h, t)) != expectRoot)
    || Uncovered(t, "decision.json")
  }

  /** Which of the four answers a directory gets. */
  lemma OutcomeIff(f: Form, t: Tree, expectRoot: string)
    ensures OutcomeOf(f, t, expectRoot).Unreadable? <==> !Readable(f, t)
    ensures Readable(f, t) ==>
              var d := f.dec(t["decision.json"].bytes).value;
              && (OutcomeOf(f, t, expectRoot).NotSelfContained? <==> d.artifacts == [])
              && (OutcomeOf(f, t, expectRoot).UnsupportedClaim? <==>
                    d.artifacts != [] && SomeClaimFails(f.h, t, d, expectRoot))
              && (OutcomeOf(f, t, expectRoot).Verified? <==>
                    d.artifacts != [] && !SomeClaimFails(f.h, t, d, expectRoot))
  {
    if Readable(f, t) {
      var d := f.dec(t["decision.json"].bytes).value;
      assert ReadDecision(f, t) == Some(d);
      ClaimsIff(f.h, t, d, expectRoot);
    }
  }

  lemma ClaimsIff(h: Hash, t: Tree, d: Gate.Decision, expectRoot: string)
    ensures ClaimsHold(h, t, d, expectRoot) <==> !SomeClaimFails(h, t, d, expectRoot)
  {
    forall a ensures ArtifactHolds(h, t, a) <==> !ArtifactFails(h, t, a) {
    }
    forall p ensures CoveredPath(t, p) <==> !Uncovered(t, p) {
    }
  }

  /** Tampering with an artifact of a verified dossier is called an unsupported claim. */
  lemma TamperedArtifactIsFound(f: Form, t: Tree, expectRoot: string, a: Gate.Artifact, bytes: string, root: string)
    requires OutcomeOf(f, t, expectRoot).Verified? && Readable(f, t)
    requires a in f.dec(t["decision.json"].bytes).value.artifacts && Paths.Clean(a.path) != "decision.json"
    requires Paths.Clean(a.path) in t && t[Paths.Clean(a.path)].Regular? && bytes != t[Paths.Clean(a.path)].bytes
    requires CollisionFree(f.h, {bytes, t[Paths.Clean(a.path)].bytes})
    ensures OutcomeOf(f, t[Paths.Clean(a.path) := Regular(bytes)], root) == UnsupportedClaim
  {
    var p := Paths.Clean(a.path);
    var u := t[p := Regular(bytes)];
    OutcomeIff(f, t, expectRoot);
    assert !ArtifactFails(f.h, t, a);
    assert ArtifactFails(f.h, u, a);
    OutcomeIff(f, u, root);
  }

  /* ---------- what the answer depends on ---------- */

  lemma CoveredIsPayload(t: Tree, p: string)
    ensures CoveredPath(t, p) <==> p in PayloadBytes(t)
    ensures CoveredPath(t, p) ==> PayloadBytes(t)[p] == BytesAt(t, p).value
  {
  }

  ghost predicate PlainPaths(d: Gate.Decision) {
    forall a :: a in d.artifacts ==> Paths.Clean(a.path) == a.path
  }

  /** The names a walk gives to what it finds are clean. */
  ghost predicate CleanNames(t: Tree) { forall p :: p in t ==> Paths.Clean(p) == p }

  /** An artifact path that is covered as it is written is its own cleaned form. */
  ghost predicate CoveredCleanly(f: Form, t: Tree) {
    forall a :: ReadDecision(f, t).Some? && a in ReadDecision(f, t).value.artifacts && CoveredPath(t, a.path) ==>
      Paths.Clean(a.path) == a.path
  }

  lemma CleanNamesCoverCleanly(f: Form, t: Tree)
    requires CleanNames(t)
    ensures CoveredCleanly(f, t)
  {
  }

  /** The answer depends on the payload bytes, and on whether everything is a file or a
      directory, and on nothing else in the directory. */
  lemma AnswerFromPayload(f: Form, t: Tree, u: Tree, expectRoot: string)
    requires CoveredCleanly(f, t)
    requires PayloadBytes(t) == PayloadBytes(u) && (AllRegular(t) <==> AllRegular(u))
    ensures ReadDecision(f, t) == ReadDecision(f, u)
    ensures OutcomeOf(f, t, expectRoot) == OutcomeOf(f, u, expectRoot)
  {
    CoveredIsPayload(t, DECISION);
    CoveredIsPayload(u, DECISION);
    SameBytesSameFiles(f.h, t, u);
    if ReadDecision(f, t).Some? {
      SameClaims(f, t, u, ReadDecision(f, t).value, expectRoot);
    }
  }

  lemma SameClaims(f: Form, t: Tree, u: Tree, d: Gate.Decision, expectRoot: string)
    requires CoveredCleanly(f, t) && ReadDecision(f, t) == Some(d)
    requires PayloadBytes(t) == PayloadBytes(u) && (AllRegular(t) <==> AllRegular(u))
    requires MeasuredPayload(f.h, t) == MeasuredPayload(f.h, u)
    ensures ClaimsHold(f.h, t, d, expectRoot) <==> ClaimsHold(f.h, u, d, expectRoot)
  {
    CoveredIsPayload(t, DECISION);
    CoveredIsPayload(u, DECISION);
    forall a | a in d.artifacts
      ensures CoveredPath(t, a.path) <==> CoveredPath(u, a.path)
      ensures CoveredPath(t, a.path) ==> (ArtifactHolds(f.h, t, a) <==> ArtifactHolds(f.h, u, a))
    {
      CoveredIsPayload(t, a.path);
      CoveredIsPayload(u, a.path);
    }
  }

  /** Against the root measured when it verified, a dossier verifies exactly as long as
      its payload is unchanged. */
  lemma SealedDossierVerifiesIffUnchanged(f: Form, t: Tree, u: Tree)
    requires OutcomeOf(f, t, "").Verified? && CoveredCleanly(f, t)
    requires NulFreeTree(f.h, t) && NulFreeTree(f.h, u)
    requires CollisionFree(f.h, MeasuredMessages(f.h, t, u))
    requires ContentRoot(f.h, MeasuredPayload(f.h, t)) != ""
    ensures OutcomeOf(f, u, ContentRoot(f.h, MeasuredPayload(f.h, t))).Verified? <==>
            AllRegular(u) && PayloadBytes(u) == PayloadBytes(t)
  {
    var root := ContentRoot(f.h, MeasuredPayload(f.h, t));
    SameRootIffSameBytes(f.h, t, u);
    if AllRegular(u) && PayloadBytes(u) == PayloadBytes(t) {
      AnswerFromPayload(f, t, u, root);
    }
  }

  /* ---------- the emitter ---------- */

  /** filepath.Ext: the suffix from the last dot of the last element. */
  function ExtAt(p: string, i: nat): (e: string)
    requires i <= |p|
    ensures '/' !in p[i..] && '.' !in p[i..] ==> '/' !in e && (e == "" || (e[0] == '.' && '.' !in e[1..]))
  {
    if i == 0 || p[i - 1] == '/' then ""
    else if p[i - 1] == '.' then
      assert p[i - 1..] == ['.'] + p[i..];
      p[i - 1..]
    else
      assert p[i - 1..] == [p[i - 1]] + p[i..];
      ExtAt(p, i - 1)
  }

  function Ext(p: string): (e: string)
    ensures '/' !in e && (e == "" || (e[0] == '.' && '.' !in e[1..]))
  {
    ExtAt(p, |p|)
  }

  /** The extension is what stands from the last dot of the last element on; without one it is empty. */
  lemma ExtIs(a: string, b: string)
    requires '/' !in b && '.' !in b
    ensures Ext(a + "." + b) == "." + b
    ensures a == "" || a[|a| - 1] == '/' ==> Ext(a + b) == ""
  {
    var p, q := a + "." + b, a + b;
    ExtFrom(p, |a| + 1, |p|);
    assert p[|a|] == '.' && p[|a|..] == "." + b;
    if a == "" || a[|a| - 1] == '/' {
      ExtFrom(q, |a|, |q|);
    }
  }

  lemma {:induction false} ExtFrom(p: string, i: nat, j: nat)
    requires i <= j <= |p| && forall k :: i <= k < j ==> p[k] != '/' && p[k] != '.'
    ensures ExtAt(p, j) == ExtAt(p, i)
    decreases j
  {
    if i < j {
      ExtFrom(p, i, j - 1);
    }
  }

  function RelPath(role: string, src: string): string { Paths.Clean(ARTIFACTS + "/" + (role + Ext(src))) }

  /** A path inside the artifacts directory, in clean form. */
  predicate InArtifacts(p: string) { Paths.HasPrefix(p, ARTIFACTS + "/") && Paths.Clean(p) == p }

  /** A role without a slash names a file in the artifacts directory, or (when role and
      extension together spell nothing, "." or "..") a directory that cannot be created
      as a file. */
  lemma RelPathShape(role: string, src: string)
    requires '/' !in role
    ensures var e := role + Ext(src);
            if Paths.Proper(e) then RelPath(role, src) == ARTIFACTS + "/" + e && InArtifacts(RelPath(role, src))
            else RelPath(role, src) == ARTIFACTS || RelPath(role, src) == "."
  {
    var e := role + Ext(src);
    var p := ARTIFACTS + "/" + e;
    Paths.SplitPlain(e);
    Paths.SplitFirst(ARTIFACTS, e);
    assert Paths.Split(p) == [ARTIFACTS, e];
    if Paths.Proper(e) {
      Paths.ProperIsSafe(p);
    } else {
      assert [ARTIFACTS, e][..1] == [ARTIFACTS] && [ARTIFACTS][..0] == [];
      assert Paths.CleanElements([ARTIFACTS]) == Paths.CleanStep(Paths.CleanElements([]), ARTIFACTS) == [ARTIFACTS];
      assert Paths.CleanElements([ARTIFACTS, e]) == Paths.CleanStep([ARTIFACTS], e);
      assert [ARTIFACTS][..0] == [];
    }
  }

  /** The artifacts recorded so far and the bytes staged for them. */
  datatype Staged = Staged(artifacts: seq<Gate.Artifact>, files: map<string, string>)

  predicate RecordedAs(artifacts: seq<Gate.Artifact>, path: string, sha256: string) {
    exists a :: a in artifacts && a.path == path && a.sha256 == sha256
  }

  /** Every recorded artifact was staged, and what is staged at its path is what some
      artifact recorded at that path hashes. */
  ghost predicate StagedInv(h: Hash, s: Staged) {
    && (forall a :: a in s.artifacts ==> a.path in s.files)
    && (forall p :: p in s.files ==> InArtifacts(p) && RecordedAs(s.artifacts, p, h(s.files[p])))
  }

  function StageOne(h: Hash, s: Staged, role: string, rel: string, bytes: string): Staged {
    Staged(s.artifacts + [Gate.Artifact(role, rel, h(bytes))], s.files[rel := bytes])
  }

  lemma StageKeepsInv(h: Hash, s: Staged, role: string, rel: string, bytes: string)
    requires StagedInv(h, s) && InArtifacts(rel)
    ensures StagedInv(h, StageOne(h, s, role, rel, bytes))
  {
    var s' := StageOne(h, s, role, rel, bytes);
    var a := Gate.Artifact(role, rel, h(bytes));
    assert a in s'.artifacts;
    forall p | p in s'.files ensures RecordedAs(s'.artifacts, p, h(s'.files[p])) {
      if p != rel {
        var b :| b in s.artifacts && b.path == p && b.sha256 == h(s.files[p]);
        assert b in s'.artifacts;
      }
    }
  }

  /** What makes a recorded artifact list re-derivable: no path the verifier refuses, and
      no path recorded with two different hashes. */
  ghost predicate CleanArtifacts(artifacts: seq<Gate.Artifact>) {
    && (forall a :: a in artifacts ==> !Contains(a.path, ".."))
    && (forall a, b :: a in artifacts && b in artifacts && a.path == b.path ==> a.sha256 == b.sha256)
  }

  function AsTree(files: map<string, string>): Tree { map p | p in files :: Regular(files[p]) }

  /** A directory a dossier can be emitted into: nothing where the dossier goes, and no
      links or devices. The empty directory is one. */
  ghost predicate Vacant(t: Tree) {
    && DECISION !in t && ARTIFACTS !in t
    && (forall p :: p in t ==> !Paths.HasPrefix(p, ARTIFACTS + "/"))
    && AllRegular(t)
  }

  /** The directory after a complete emission. */
  function Emitted(f: Form, t: Tree, d: Gate.Decision, s: Staged): Tree {
    (t + AsTree(s.files))[ARTIFACTS := Directory][DECISION := Regular(f.enc(d.(artifacts := s.artifacts)) + "\n")]
  }

  /** Encoding and decoding this decision, as it stands, loses nothing. */
  ghost predicate RoundTrips(f: Form, e: Gate.Decision) { f.dec(f.enc(e) + "\n") == Some(e) }

  /** Exactly when the verifier accepts what the emitter completed. */
  lemma EmittedVerifiesIff(f: Form, t: Tree, d: Gate.Decision, s: Staged)
    requires Vacant(t) && StagedInv(f.h, s) && RoundTrips(f, d.(artifacts := s.artifacts))
    ensures OutcomeOf(f, Emitted(f, t, d, s), "").Verified? <==>
            Gate.Supported(d) && s.artifacts != [] && CleanArtifacts(s.artifacts)
    ensures PlainPaths(d.(artifacts := s.artifacts))
    ensures ReadDecision(f, Emitted(f, t, d, s)) == Some(d.(artifacts := s.artifacts))
    ensures AllRegular(Emitted(f, t, d, s))
  {
    var e, u := d.(artifacts := s.artifacts), Emitted(f, t, d, s);
    assert Gate.Supported(e) <==> Gate.Supported(d);
    EmittedTree(f, t, d, s);
    forall a | a in e.artifacts
      ensures Paths.Clean(a.path) == a.path && CoveredPath(u, a.path)
      ensures ArtifactHolds(f.h, u, a) <==> !Contains(a.path, "..") && f.h(s.files[a.path]) == a.sha256
    {
      ArtifactInTree(f, t, d, s, a);
    }
    CleanArtifactsHash(f.h, s);
  }

  lemma EmittedTree(f: Form, t: Tree, d: Gate.Decision, s: Staged)
    requires Vacant(t)
    ensures AllRegular(Emitted(f, t, d, s))
    ensures CoveredPath(Emitted(f, t, d, s), DECISION)
    ensures BytesAt(Emitted(f, t, d, s), DECISION) == Some(f.enc(d.(artifacts := s.artifacts)) + "\n")
  {
  }

  lemma CleanArtifactsHash(h: Hash, s: Staged)
    requires StagedInv(h, s)
    ensures CleanArtifacts(s.artifacts) <==>
            forall a :: a in s.artifacts ==> !Contains(a.path, "..") && h(s.files[a.path]) == a.sha256
  {
    if CleanArtifacts(s.artifacts) {
      forall a | a in s.artifacts ensures h(s.files[a.path]) == a.sha256 {
        assert RecordedAs(s.artifacts, a.path, h(s.files[a.path]));
      }
    }
  }

  lemma InArtifactsShape(p: string)
    requires InArtifacts(p)
    ensures p != ARTIFACTS && p != DECISION && !IsBundleMetadata(p) && !Paths.HasPrefix(p, "/")
  {
    assert p[0] == 'a' && p[9] == '/';
  }

  lemma ArtifactInTree(f: Form, t: Tree, d: Gate.Decision, s: Staged, a: Gate.Artifact)
    requires StagedInv(f.h, s) && a in s.artifacts
    ensures a.path in s.files && Paths.Clean(a.path) == a.path && !Paths.HasPrefix(a.path, "/")
    ensures BytesAt(Emitted(f, t, d, s), a.path) == Some(s.files[a.path])
    ensures CoveredPath(Emitted(f, t, d, s), a.path)
  {
    InArtifactsShape(a.path);
  }

  /* ---------- dot-free roles ---------- */

  predicate PlainRole(role: string) { role != "" && '/' !in role && '.' !in role }

  /** An artifact list that the emitter could record from these sources. */
  ghost predicate Recordable(h: Hash, sources: map<string, string>, readable: map<string, string>,
                             artifacts: seq<Gate.Artifact>) {
    forall a :: a in artifacts ==>
      && a.role in sources && sources[a.role] != "" && sources[a.role] in readable
      && a.path == RelPath(a.role, sources[a.role]) && a.sha256 == h(readable[sources[a.role]])
  }

  /** What the emitter records about its sources. */
  ghost predicate RecordsSources(h: Hash, sources: map<string, string>, readable: map<string, string>, s: Staged) {
    Recordable(h, sources, readable, s.artifacts)
  }

  /** Encoding and decoding loses nothing of what can come of emitting `d` from these sources. */
  ghost predicate Encodable(f: Form, d: Gate.Decision, sources: map<string, string>, readable: map<string, string>) {
    forall artifacts :: Recordable(f.h, sources, readable, artifacts) ==> RoundTrips(f, d.(artifacts := artifacts))
  }

  /** It is enough that JSON loses nothing of valid text, and that the roles, the paths
      made from them and the digests are valid text. */
  lemma ValidTextIsEncodable(f: Form, d: Gate.Decision, sources: map<string, string>, readable: map<string, string>,
                             valid: string -> bool)
    requires forall artifacts :: (forall a: Gate.Artifact :: a in artifacts ==>
            valid(a.role) && valid(a.path) && valid(a.sha256)) ==>
               RoundTrips(f, d.(artifacts := artifacts))
    requires forall role :: role in sources ==> valid(role) && valid(RelPath(role, sources[role]))
    requires forall src :: src in readable ==> valid(f.h(readable[src]))
    ensures Encodable(f, d, sources, readable)
  {
  }

  lemma PlainRolePath(role: string, src: string)
    requires PlainRole(role)
    ensures RelPath(role, src) == ARTIFACTS + "/" + role + Ext(src)
    ensures !Contains(RelPath(role, src), "..")
  {
    var e := role + Ext(src);
    assert e[0] == role[0];
    RelPathShape(role, src);
    assert ARTIFACTS + "/" + e == ARTIFACTS + "/" + role + Ext(src);
    var p := RelPath(role, src);
    var n := |ARTIFACTS + "/" + role|;
    assert forall i :: 0 <= i < n ==> (ARTIFACTS + "/" + role)[i] != '.';
    forall i | 0 <= i <= |p| ensures !OccursAt(p, "..", i) {
      if i + 2 <= |p| {
        assert p[i..i + 2][0] == p[i] && p[i..i + 2][1] == p[i + 1];
        assert i < n ==> p[i] == (ARTIFACTS + "/" + role)[i];
        assert i >= n ==> p[i + 1] == Ext(src)[1..][i - n];
      }
    }
  }

  lemma PlainRolesApart(r1: string, s1: string, r2: string, s2: string)
    requires PlainRole(r1) && PlainRole(r2) && RelPath(r1, s1) == RelPath(r2, s2)
    ensures r1 == r2
  {
    PlainRolePath(r1, s1);
    PlainRolePath(r2, s2);
    var k := |ARTIFACTS + "/"|;
    var p, e1, e2 := RelPath(r1, s1), Ext(s1) + ".", Ext(s2) + ".";
    assert p[k..] == r1 + Ext(s1) && p[k..] == r2 + Ext(s2);
    assert e1 == ['.'] + e1[1..] && e2 == ['.'] + e2[1..];
    assert r1 + ['.'] + e1[1..] == p[k..] + "." == r2 + ['.'] + e2[1..];
    CutAtTerminator('.', r1, r2, e1[1..], e2[1..]);
  }

  /** Dot-free roles always give a clean artifact list. */
  lemma PlainRolesAreClean(h: Hash, sources: map<string, string>, readable: map<string, string>, s: Staged)
    requires RecordsSources(h, sources, readable, s)
    requires forall role :: role in sources ==> PlainRole(role)
    ensures CleanArtifacts(s.artifacts)
  {
    forall a | a in s.artifacts ensures !Contains(a.path, "..") {
      PlainRolePath(a.role, sources[a.role]);
    }
    forall a, b | a in s.artifacts && b in s.artifacts && a.path == b.path ensures a.sha256 == b.sha256 {
      PlainRolesApart(a.role, sources[a.role], b.role, sources[b.role]);
    }
  }

  /* ---------- emitting, one file-system step at a time ---------- */

  datatype EmitResult = Emission(decision: Gate.Decision) | EmitFailed | ProcessGone

  predicate StageName(name: string) { Paths.HasPrefix(name, ".emit-") && '/' !in name }

  function BelowKeys(name: string, t: Tree): set<string> { set p | p in t :: name + "/" + p }

  /** The entries of a subdirectory, as seen from above it. */
  function Below(name: string, t: Tree): Tree
  {
    map q | q in BelowKeys(name, t) && |q| > |name| && q[|name| + 1..] in t :: t[q[|name| + 1..]]
  }

  /** What happens when the steps run out. An error in the last sync comes after everything
      else is done. */
  datatype Mishap = Gone | Fails

  datatype CopyResult = Copied | CopyFailed | Interrupted

  class DossierDir {
    /** The directory proper, and the staging directory inside it. */
    var settled: Tree
    var stage: Option<string>
    var staging: Tree

    constructor (initial: Tree)
      ensures settled == initial && stage == None && staging == map[]
    {
      settled, stage, staging := initial, None, map[];
    }

    /** What a reader of the directory sees. */
    ghost function View(): Tree
      reads this
    {
      match stage
      case None => settled
      case Some(name) => settled[name := Directory] + Below(name, staging)
    }

    /** One source: copied into the staging directory and its hash recorded. A copy is
        two steps, an empty file and then its contents. */
    method CopyOne(f: Form, role: string, src: string, readable: map<string, string>, before: Staged, budget: nat)
      returns (r: CopyResult, s: Staged, left: nat)
      requires staging == AsTree(before.files)[ARTIFACTS := Directory]
      requires StagedInv(f.h, before) && '/' !in role
      modifies this`staging
      ensures r.Copied? ==>
        && src in readable && s == StageOne(f.h, before, role, RelPath(role, src), readable[src])
        && StagedInv(f.h, s) && staging == AsTree(s.files)[ARTIFACTS := Directory]
      ensures !r.Copied? ==> s == before
    {
      s, left := before, budget;
      var rel := RelPath(role, src);
      if src !in readable || rel == ARTIFACTS || rel == "." {
        return CopyFailed, s, left;
      }
      if left == 0 {
        return Interrupted, s, left;
      }
      staging, left := staging[rel := Regular("")], left - 1;
      if left == 0 {
        return Interrupted, s, left;
      }
      staging, left := staging[rel := Regular(readable[src])], left - 1;
      RelPathShape(role, src);
      StageKeepsInv(f.h, s, role, rel, readable[src]);
      StagedTree(before.files, rel, readable[src]);
      r, s := Copied, StageOne(f.h, s, role, rel, readable[src]);
    }

    /** One turn of the loop: a role without a source is passed over. */
    method CopyRole(f: Form, sources: map<string, string>, readable: map<string, string>, roles: seq<string>, i: nat,
                    before: Staged, budget: nat)
      returns (r: CopyResult, s: Staged, left: nat)
      requires i < |roles| && roles[i] in sources && '/' !in roles[i]
      requires StagedInv(f.h, before) && RecordsSources(f.h, sources, readable, before)
      requires staging == AsTree(before.files)[ARTIFACTS := Directory] && RecordsFirst(sources, roles, i, before)
      modifies this`staging
      ensures StagedInv(f.h, s) && RecordsSources(f.h, sources, readable, s)
      ensures r.Copied? ==> staging == AsTree(s.files)[ARTIFACTS := Directory] && RecordsFirst(sources, roles, i + 1, s)
    {
      var role := roles[i];
      if sources[role] == "" {
        return Copied, before, budget;
      }
      r, s, left := CopyOne(f, role, sources[role], readable, before, budget);
      if r.Copied? {
        StageRecords(f.h, sources, readable, before, role);
      }
    }

    /** The loop over the roles, in sorted order. */
    method CopySources(f: Form, sources: map<string, string>, readable: map<string, string>, budget: nat)
      returns (r: CopyResult, s: Staged, left: nat)
      requires staging == map[ARTIFACTS := Directory]
      requires forall role :: role in sources ==> '/' !in role
      modifies this`staging
      ensures StagedInv(f.h, s) && RecordsSources(f.h, sources, readable, s)
      ensures r.Copied? ==> staging == AsTree(s.files)[ARTIFACTS := Directory] && RecordsAll(sources, s)
    {
      r, s, left := Copied, Staged([], map[]), budget;
      var roles := ListRoles(sources);
      for i := 0 to |roles|
        invariant r.Copied? && StagedInv(f.h, s) && RecordsSources(f.h, sources, readable, s)
        invariant staging == AsTree(s.files)[ARTIFACTS := Directory] && RecordsFirst(sources, roles, i, s)
      {
        assert roles[i] in roles;
        r, s, left := CopyRole(f, sources, readable, roles, i, s, left);
        if !r.Copied? {
          return;
        }
      }
      EveryRoleRecorded(sources, roles, s);
    }

    /** decision.json is written beside the artifacts; then the artifacts move in, and
        only then the decision. */
    method MoveIn(f: Form, d: Gate.Decision, s: Staged, budget: nat) returns (r: EmitResult)
      requires stage.Some? && staging == AsTree(s.files)[ARTIFACTS := Directory]
      requires Vacant(settled) && StagedInv(f.h, s)
      modifies this
      ensures !r.EmitFailed?
      ensures r.Emission? ==> stage == None && r.decision == d.(artifacts := s.artifacts) && DECISION in settled
      ensures r.ProcessGone? ==> stage == old(stage)
      ensures DECISION in settled ==> settled == Emitted(f, old(settled), d, s) && staging == map[]
      ensures DECISION !in settled ==> settled == old(settled) || settled == Halfway(old(settled), s)
    {
      if budget == 0 {
        return ProcessGone;
      }
      staging := staging[DECISION := Regular(f.enc(d.(artifacts := s.artifacts)) + "\n")];
      r := MoveBoth(f, d, s, budget - 1);
    }

    /** The two renames, and the removal of the staging directory. */
    method MoveBoth(f: Form, d: Gate.Decision, s: Staged, budget: nat) returns (r: EmitResult)
      requires stage.Some? && Vacant(settled) && StagedInv(f.h, s)
      requires staging == AsTree(s.files)[ARTIFACTS := Directory][
                            DECISION := Regular(f.enc(d.(artifacts := s.artifacts)) + "\n")]
      modifies this
      ensures !r.EmitFailed?
      ensures r.Emission? ==> stage == None && r.decision == d.(artifacts := s.artifacts) && DECISION in settled
      ensures r.ProcessGone? ==> stage == old(stage)
      ensures DECISION in settled ==> settled == Emitted(f, old(settled), d, s) && staging == map[]
      ensures DECISION !in settled ==> settled == old(settled) || settled == Halfway(old(settled), s)
    {
      if budget == 0 {
        return ProcessGone;
      }
      var decision := staging[DECISION];
      ghost var half := Halfway(settled, s);
      ghost var whole := Emitted(f, settled, d, s);
      MovedArtifacts(f, settled, s, decision);
      settled, staging := settled + (staging - {DECISION}), map[DECISION := decision];
      assert settled == half && DECISION !in settled;
      if budget == 1 {
        return ProcessGone;
      }
      settled, staging := settled[DECISION := decision], map[];
      assert settled == whole && DECISION in settled;
      if budget == 2 {
        return ProcessGone;
      }
      stage := None;
      r := Emission(d.(artifacts := s.artifacts));
    }

    method EmitSteps(f: Form, d: Gate.Decision, sources: map<string, string>, readable: map<string, string>,
                     name: string, budget: nat)
      returns (r: EmitResult, s: Staged)
      requires stage == None && staging == map[] && Vacant(settled)
      requires forall role :: role in sources ==> '/' !in role
      modifies this
      ensures StagedInv(f.h, s) && RecordsSources(f.h, sources, readable, s)
      ensures stage == None || stage == Some(name)
      ensures DECISION in settled ==>
        settled == Emitted(f, old(settled), d, s) && staging == map[] && RecordsAll(sources, s)
      ensures DECISION !in settled ==> settled == old(settled) || settled == Halfway(old(settled), s)
      ensures r.Emission? ==> DECISION in settled && stage == None && r.decision == d.(artifacts := s.artifacts)
      ensures r.EmitFailed? ==> settled == old(settled) && stage == None && staging == map[]
    {
      s := Staged([], map[]);
      if budget == 0 {
        return ProcessGone, s;
      }
      stage := Some(name);
      if budget == 1 {
        return ProcessGone, s;
      }
      staging := map[ARTIFACTS := Directory];
      var copied, left;
      copied, s, left := CopySources(f, sources, readable, budget - 2);
      match copied {
        case Copied => r := MoveIn(f, d, s, left);
        case CopyFailed => stage, staging, r := None, map[], EmitFailed;
        case Interrupted => r := ProcessGone;
      }
    }

    /** Emit, allowed `budget` file-system steps: then the process is gone, or the next step
        returns an error and the staging directory is removed. Wherever it stops, a reader
        finds either no decision at all, so that the verifier says Unreadable, or the
        complete dossier. */
    method Emit(f: Form, d: Gate.Decision, sources: map<string, string>, readable: map<string, string>,
                name: string, budget: nat, mishap: Mishap)
      returns (r: EmitResult, s: Staged)
      requires stage == None && staging == map[] && Vacant(settled)
      requires StageName(name) && name !in settled
      requires Encodable(f, d, sources, readable)
      requires forall role :: role in sources ==> '/' !in role
      modifies this
      ensures RecordsSources(f.h, sources, readable, s)
      ensures DECISION !in settled ==>
        && OutcomeOf(f, View(), "").Unreadable?
        && (settled == old(settled) || settled == Halfway(old(settled), s))
      ensures DECISION in settled ==>
        && settled == Emitted(f, old(settled), d, s) && RecordsAll(sources, s)
        && OutcomeOf(f, View(), "") == OutcomeOf(f, settled, "")
        && (OutcomeOf(f, View(), "").Verified? <==>
              Gate.Supported(d) && s.artifacts != [] && CleanArtifacts(s.artifacts))
      ensures r.Emission? ==> DECISION in settled && stage == None && r.decision == d.(artifacts := s.artifacts)
      ensures r.EmitFailed? ==> stage == None && staging == map[] && (mishap.Gone? ==> settled == old(settled))
      ensures r.ProcessGone? ==> mishap.Gone?
    {
      ghost var before := settled;
      r, s := EmitSteps(f, d, sources, readable, name, budget);
      if r.ProcessGone? && mishap.Fails? {
        stage, staging, r := None, map[], EmitFailed;
      }
      if DECISION in settled {
        EmittedVerifiesIff(f, before, d, s);
        EmptyStageIsHarmless(f, before, d, s, name);
      } else {
        NoDecisionIsUnreadable(f, settled, name, staging);
      }
    }
  }

  /** The artifacts have moved in and the decision has not. */
  function Halfway(t: Tree, s: Staged): Tree { (t + AsTree(s.files))[ARTIFACTS := Directory] }

  ghost predicate RecordsRole(s: Staged, role: string) { exists a :: a in s.artifacts && a.role == role }

  ghost predicate RecordsAll(sources: map<string, string>, s: Staged) {
    forall role :: role in sources && sources[role] != "" ==> RecordsRole(s, role)
  }

  ghost predicate RecordsFirst(sources: map<string, string>, roles: seq<string>, n: nat, s: Staged)
    requires n <= |roles|
  {
    forall k :: 0 <= k < n && roles[k] in sources && sources[roles[k]] != "" ==> RecordsRole(s, roles[k])
  }

  lemma EveryRoleRecorded(sources: map<string, string>, roles: seq<string>, s: Staged)
    requires RecordsFirst(sources, roles, |roles|, s) && forall role :: role in sources ==> role in roles
    ensures RecordsAll(sources, s)
  {
  }

  lemma StagedTree(files: map<string, string>, rel: string, bytes: string)
    requires InArtifacts(rel)
    ensures AsTree(files)[ARTIFACTS := Directory][rel := Regular("")][rel := Regular(bytes)] ==
            AsTree(files[rel := bytes])[ARTIFACTS := Directory]
  {
    InArtifactsShape(rel);
  }

  lemma StageRecords(h: Hash, sources: map<string, string>, readable: map<string, string>, s: Staged, role: string)
    requires role in sources && sources[role] != "" && sources[role] in readable
    requires RecordsSources(h, sources, readable, s)
    ensures var s' := StageOne(h, s, role, RelPath(role, sources[role]), readable[sources[role]]);
            && RecordsSources(h, sources, readable, s') && RecordsRole(s', role)
            && forall other :: RecordsRole(s, other) ==> RecordsRole(s', other)
  {
    var a := Gate.Artifact(role, RelPath(role, sources[role]), h(readable[sources[role]]));
    var s' := StageOne(h, s, role, RelPath(role, sources[role]), readable[sources[role]]);
    assert a in s'.artifacts;
    assert forall b :: b in s.artifacts ==> b in s'.artifacts;
  }

  lemma NotTheDecision(h: Hash, s: Staged)
    requires StagedInv(h, s)
    ensures DECISION !in s.files
  {
    if DECISION in s.files {
      InArtifactsShape(DECISION);
    }
  }

  lemma WithoutTheDecision(f: Form, s: Staged, decision: Entry)
    requires StagedInv(f.h, s)
    ensures AsTree(s.files)[ARTIFACTS := Directory][DECISION := decision] - {DECISION} ==
            AsTree(s.files)[ARTIFACTS := Directory]
  {
    NotTheDecision(f.h, s);
  }

  lemma MovedArtifacts(f: Form, t: Tree, s: Staged, decision: Entry)
    requires Vacant(t) && StagedInv(f.h, s)
    ensures var staging := AsTree(s.files)[ARTIFACTS := Directory][DECISION := decision];
            t + (staging - {DECISION}) == Halfway(t, s) && DECISION !in t + (staging - {DECISION})
  {
    NotTheDecision(f.h, s);
    WithoutTheDecision(f, s, decision);
  }

  lemma EmptyDirectoryAdded(u: Tree, name: string)
    requires AllRegular(u) && name !in u
    ensures AllRegular(u[name := Directory]) && PayloadBytes(u[name := Directory]) == PayloadBytes(u)
    ensures u[name := Directory] + Below(name, map[]) == u[name := Directory]
  {
  }

  /** A staging directory that was left behind empty does not change the answer. */
  lemma EmptyStageIsHarmless(f: Form, t: Tree, d: Gate.Decision, s: Staged, name: string)
    requires Vacant(t) && StagedInv(f.h, s) && RoundTrips(f, d.(artifacts := s.artifacts))
    requires StageName(name) && name !in t
    ensures var u := Emitted(f, t, d, s);
            OutcomeOf(f, u[name := Directory] + Below(name, map[]), "") == OutcomeOf(f, u, "")
  {
    var u := Emitted(f, t, d, s);
    EmittedVerifiesIff(f, t, d, s);
    assert name[0] == '.';
    forall p | p in s.files ensures p != name {
      InArtifactsShape(p);
      assert p[0] == 'a';
    }
    assert name !in u;
    var v := u[name := Directory];
    EmptyDirectoryAdded(u, name);
    AnswerFromPayload(f, u, v, "");
  }

  /** The round trip the package promises: a decision its stages support, with at least
      one source and dot-free roles, verifies once its emission completed. */
  lemma EmitThenVerify(f: Form, t: Tree, d: Gate.Decision, sources: map<string, string>,
                       readable: map<string, string>, s: Staged)
    requires Vacant(t) && StagedInv(f.h, s) && RoundTrips(f, d.(artifacts := s.artifacts))
    requires RecordsSources(f.h, sources, readable, s) && RecordsAll(sources, s)
    requires forall role :: role in sources ==> PlainRole(role)
    ensures OutcomeOf(f, Emitted(f, t, d, s), "").Verified? <==>
            Gate.Supported(d) && exists role :: role in sources && sources[role] != ""
  {
    EmittedVerifiesIff(f, t, d, s);
    PlainRolesAreClean(f.h, sources, readable, s);
    if s.artifacts != [] {
      assert s.artifacts[0] in s.artifacts;
      assert s.artifacts[0].role in sources;
    }
  }

  /** Without decision.json in the directory proper, the verifier cannot run. */
  lemma NoDecisionIsUnreadable(f: Form, settled: Tree, name: string, staging: Tree)
    requires DECISION !in settled && StageName(name)
    ensures OutcomeOf(f, settled, "").Unreadable?
    ensures OutcomeOf(f, settled[name := Directory] + Below(name, staging), "").Unreadable?
  {
    assert name[0] == '.';
    assert forall q :: q in Below(name, staging) ==> q[0] == '.';
  }

  method ListRoles(sources: map<string, string>) returns (roles: seq<string>)
    ensures Sorted(roles, Itself) && forall r :: r in roles <==> r in sources
    ensures |roles| == |sources|
  {
    var rest, listed: seq<string> := sources.Keys, [];
    while rest != {}
      invariant rest <= sources.Keys && |listed| + |rest| == |sources.Keys|
      invariant forall r :: r in listed <==> r in sources && r !in rest
    {
      var r :| r in rest;
      listed, rest := listed + [r], rest - {r};
    }
    roles := SortBy(listed, Itself);
    SortBySorted(listed, Itself);
    assert |roles| == |multiset(roles)| == |listed|;
    forall r ensures r in roles <==> r in listed {
      assert r in roles <==> r in multiset(roles);
      assert r in listed <==> r in multiset(listed);
    }
  }
}
