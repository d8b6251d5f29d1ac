/** cmd/bundle-sign: the producer of what the gate on the boundary accepts. */
module BundleSign {
  import opened Text
  import opened ContentStore
  import opened Manifest
  import opened Ingress
  import Paths
  import Quorum
  import Signer
  import SigFile
  import SealTool

  /** A loaded secret key: the id of its public half, and the signatures it makes, encoded. */
  datatype SigningKey = SigningKey(id: string, sign: string -> string)

  function Sign(key: SigningKey, canonical: string): SigFile.Signed { SigFile.Signed(key.id, key.sign(canonical)) }

  function SignaturesOver(keys: seq<SigningKey>, canonical: string): seq<SigFile.Signed> {
    seq(|keys|, i requires 0 <= i < |keys| => Sign(keys[i], canonical))
  }

  /** The directory once manifest and signatures are in it. */
  function SignedTree(k: Tools, t: Tree, m: Manifest, keys: seq<SigningKey>): Tree {
    var canonical := Canonical(k.json, m);
    t[MANIFEST_JSON := Regular(canonical)][MANIFEST_SIG := Regular(SigFile.TextOf(SignaturesOver(keys, canonical)))]
  }

  datatype Answer = Done(root: string) | Failed

  predicate Loaded(keys: seq<Option<SigningKey>>) { keys != [] && forall i :: 0 <= i < |keys| ==> keys[i].Some? }

  function Values(keys: seq<Option<SigningKey>>): seq<SigningKey>
    requires forall i :: 0 <= i < |keys| ==> keys[i].Some?
  {
    seq(|keys|, i requires 0 <= i < |keys| => keys[i].value)
  }

  predicate IsDirectory(t: Tree, p: string) { p in t && t[p].Directory? }

  lemma {:induction false} TextAppend(sigs: seq<SigFile.Signed>, s: SigFile.Signed)
    ensures SigFile.TextOf(sigs + [s]) == SigFile.TextOf(sigs) + (SigFile.LineFor(s) + "\n")
  {
    if sigs == [] {
      assert (sigs + [s])[1..] == [];
    } else {
      assert (sigs + [s])[1..] == sigs[1..] + [s];
      TextAppend(sigs[1..], s);
    }
  }

  class BundleDir {
    var tree: Tree

    constructor (initial: Tree)
      ensures tree == initial
    {
      tree := initial;
    }

    /** One line per key; a key that cannot be loaded stops everything. */
    method SignWith(keys: seq<Option<SigningKey>>, canonical: string) returns (r: Option<string>)
      ensures r.Some? <==> forall i :: 0 <= i < |keys| ==> keys[i].Some?
      ensures r.Some? ==> r.value == SigFile.TextOf(SignaturesOver(Values(keys), canonical))
    {
      var text := "";
      for i := 0 to |keys|
        invariant forall j :: 0 <= j < i ==> keys[j].Some?
        invariant text == SigFile.TextOf(SignaturesOver(Values(keys[..i]), canonical))
      {
        if keys[i].None? {
          return None;
        }
        var signed := Sign(keys[i].value, canonical);
        assert SignaturesOver(Values(keys[..i + 1]), canonical) == SignaturesOver(Values(keys[..i]), canonical) +
            [signed];
        TextAppend(SignaturesOver(Values(keys[..i]), canonical), signed);
        text := text + (SigFile.LineFor(signed) + "\n");
      }
      assert keys[..|keys|] == keys;
      r := Some(text);
    }

    /** The tool: measure the payload, write the canonical manifest over it and the
        signatures, print the root. It stops before writing anything if the tree holds
        something other than files and directories, or a key cannot be loaded. */
    method Produce(k: Tools, bundleId: string, version: Version, created: string, keys: seq<Option<SigningKey>>)
      returns (r: Answer)
      modifies this
      ensures !AllRegular(old(tree)) || !Loaded(keys) ==> r.Failed? && tree == old(tree)
      ensures AllRegular(old(tree)) && Loaded(keys) ==>
                (r.Done? <==> !IsDirectory(old(tree), MANIFEST_JSON) && !IsDirectory(old(tree), MANIFEST_SIG))
      ensures r.Done? ==>
                var m := Manifest(SCHEMA, bundleId, version, created, MeasuredPayload(k.h, old(tree)));
                r.root == ContentRoot(k.h, m.files) && tree == SignedTree(k, old(tree), m, Values(keys))
    {
      if keys == [] {
        return Failed;
      }
      var measured := MeasureBundle(k.h, tree);
      if measured.Err? {
        return Failed;
      }
      var m := Manifest(SCHEMA, bundleId, version, created, measured.value.0);
      var canonical := Canonical(k.json, m);
      var text := SignWith(keys, canonical);
      if text.None? || IsDirectory(tree, MANIFEST_JSON) {
        return Failed;
      }
      tree := tree[MANIFEST_JSON := Regular(canonical)];
      if IsDirectory(tree, MANIFEST_SIG) {
        return Failed;
      }
      tree := tree[MANIFEST_SIG := Regular(text.value)];
      r := Done(measured.value.1);
    }
  }

  /* ---------- what the gate makes of it ---------- */

  function KeyIdOf(s: SigFile.Signed): string { s.keyId }

  /** The signature is by a key provisioned on the other side, and verifies there. */
  predicate Good(c: Signer.Crypto, canonical: string, trusted: Signer.PublicKeys, s: SigFile.Signed) {
    && s.keyId in trusted && c.decode(s.sig).Some? && c.ed25519(trusted[s.keyId], canonical, c.decode(s.sig).value)
  }

  /** Two different people, both provisioned, and nobody else. */
  ghost predicate KeysSuffice(c: Signer.Crypto, canonical: string, trusted: Signer.PublicKeys,
      sigs: seq<SigFile.Signed>) {
    (forall s :: s in sigs ==> Good(c, canonical, trusted, s)) && DistinctKeys(sigs, KeyIdOf) &&
        |sigs| >= 2
  }

  lemma JudgeOfLine(c: Signer.Crypto, canonical: string, trusted: Signer.PublicKeys, s: SigFile.Signed)
    ensures Quorum.JudgeBy(Signer.ManifestReader(c, canonical, trusted), Itself)(SigFile.FieldsFor(s)) ==
            if Good(c, canonical, trusted, s) then Quorum.SignedBy(s.keyId) else Quorum.Bad
  {
    var line := SigFile.FieldsFor(s);
    assert |line.fields| == 3 && line.fields[0] == Signer.ALG_ED25519 && line.fields[1] == s.keyId &&
        line.fields[2] == s.sig;
    var read := Signer.ReadManifestLine(c, canonical, trusted, line);
    assert Signer.ManifestReader(c, canonical, trusted)(line) == read;
    assert Good(c, canonical, trusted, s) ==> read == Ok(Some(s.keyId));
    assert !Good(c, canonical, trusted, s) ==> read.Err?;
  }

  lemma {:induction false} SignersOfLines(c: Signer.Crypto, canonical: string, trusted: Signer.PublicKeys,
      sigs: seq<SigFile.Signed>)
    requires forall s :: s in sigs ==> Good(c, canonical, trusted, s)
    ensures Quorum.Signers(SigFile.LinesFor(sigs),
            Quorum.JudgeBy(Signer.ManifestReader(c, canonical, trusted), Itself)) ==
            Quorum.Names(sigs, KeyIdOf)
  {
    if sigs != [] {
      JudgeOfLine(c, canonical, trusted, sigs[0]);
      SignersOfLines(c, canonical, trusted, sigs[1..]);
      assert SigFile.LinesFor(sigs)[1..] == SigFile.LinesFor(sigs[1..]);
      Quorum.NamesFirst(sigs, KeyIdOf);
    }
  }

  lemma WrittenSignaturesMeetIff(c: Signer.Crypto, canonical: string, trusted: Signer.PublicKeys,
      sigs: seq<SigFile.Signed>)
    requires forall s :: s in sigs ==> SigFile.Writable(s)
    ensures Signer.VerifySignaturesOutcome(c, canonical, SigFile.LinesOf(SigFile.TextOf(sigs)), trusted,
            REQUIRED_SIGNERS).Ok?
            <==> KeysSuffice(c, canonical, trusted, sigs)
  {
    var judge := Quorum.JudgeBy(Signer.ManifestReader(c, canonical, trusted), Itself);
    var lines := SigFile.LinesFor(sigs);
    SigFile.WrittenLinesAreRead(sigs);
    Quorum.EnoughIffMeets(lines, Signer.ManifestReader(c, canonical, trusted), Itself, Signer.DuplicateSigner,
                          REQUIRED_SIGNERS, Signer.InsufficientSignatures);
    forall i | 0 <= i < |sigs| ensures judge(lines[i]).Bad? <==> !Good(c, canonical, trusted, sigs[i]) {
      JudgeOfLine(c, canonical, trusted, sigs[i]);
    }
    if forall s :: s in sigs ==> Good(c, canonical, trusted, s) {
      SignersOfLines(c, canonical, trusted, sigs);
      assert Quorum.NoneBad(lines, judge);
      DistinctNames(sigs);
    } else {
      var i :| 0 <= i < |sigs| && !Good(c, canonical, trusted, sigs[i]);
      assert lines[i] in lines && judge(lines[i]).Bad?;
    }
  }

  lemma DistinctNames(sigs: seq<SigFile.Signed>)
    ensures DistinctKeys(Quorum.Names(sigs, KeyIdOf), Itself) <==> DistinctKeys(sigs, KeyIdOf)
  {
    var names := Quorum.Names(sigs, KeyIdOf);
    assert forall i :: 0 <= i < |sigs| ==> Itself(names[i]) == KeyIdOf(sigs[i]);
  }

  /** A manifest over a measured tree, and the request made with it. */
  ghost predicate ManifestOf(k: Tools, t: Tree, m: Manifest) {
    && AllRegular(t) && "." !in t && m.schema == SCHEMA && m.files == MeasuredPayload(k.h, t) && Lossless(k.json, m)
  }

  function Request(k: Tools, t: Tree, m: Manifest, keys: seq<SigningKey>, trusted: Signer.PublicKeys,
      allow: seq<string>): Submission {
    Submission(SignedTree(k, t, m, keys), Some(trusted), allow, true)
  }

  lemma FilesOfSignedTree(k: Tools, t: Tree, m: Manifest, keys: seq<SigningKey>)
    ensures var u, canonical := SignedTree(k, t, m, keys), Canonical(k.json, m);
            && BytesAt(u, MANIFEST_JSON) == Some(canonical)
            && BytesAt(u, MANIFEST_SIG) == Some(SigFile.TextOf(SignaturesOver(keys, canonical)))
  {
  }

  lemma MeasuredIsOrdered(k: Tools, t: Tree, m: Manifest)
    requires ManifestOf(k, t, m)
    ensures Ordered(m) == m && Sorted(m.files, PathOf)
  {
    MeasuredPayloadElements(k.h, t);
    StrictIsDistinct(m.files, PathOf);
    SortOfSorted(m.files, PathOf);
  }

  lemma ProducedIsRead(k: Tools, t: Tree, m: Manifest, keys: seq<SigningKey>, trusted: Signer.PublicKeys,
      allow: seq<string>)
    requires ManifestOf(k, t, m)
    ensures ReadManifest(k, Request(k, t, m, keys, trusted, allow)) == Some(m)
  {
    FilesOfSignedTree(k, t, m, keys);
    MeasuredIsOrdered(k, t, m);
    TrimIdempotent(k.json.enc(m));
    ParseIff(k.json, Canonical(k.json, m), m);
  }

  lemma {:induction false} TrimIdempotent(b: string)
    ensures TrimNewlines(TrimNewlines(b)) == TrimNewlines(b)
  {
    if b != "" && IsNewline(b[|b| - 1]) {
      TrimIdempotent(b[..|b| - 1]);
    }
  }

  /** Signing does not move the payload. */
  lemma PayloadIsUnmoved(k: Tools, t: Tree, m: Manifest, keys: seq<SigningKey>)
    ensures MeasuredPayload(k.h, SignedTree(k, t, m, keys)) == MeasuredPayload(k.h, t)
    ensures AllRegular(t) ==> AllRegular(SignedTree(k, t, m, keys))
  {
    SameBytesSameFiles(k.h, SignedTree(k, t, m, keys), t);
  }

  ghost predicate PathsAllowed(fs: seq<File>, allow: seq<string>) {
    forall f :: f in fs ==> Paths.Admitted(f.path, allow)
  }

  lemma ProducedHolds(k: Tools, t: Tree, m: Manifest, keys: seq<SigningKey>)
    requires ManifestOf(k, t, m)
    ensures var u := SignedTree(k, t, m, keys);
            && AllRegular(u) && (forall f :: f in m.files ==> f.path != "." && Holds(k.h, u, f))
            && (forall p :: p in u && u[p].Regular? && !IsBundleMetadata(p) ==> Listed(m.files, p))
  {
    var u := SignedTree(k, t, m, keys);
    PayloadIsUnmoved(k, t, m, keys);
    MeasuredPayloadElements(k.h, u);
    forall p | p in u && u[p].Regular? && !IsBundleMetadata(p) ensures Listed(m.files, p) {
      assert FileOf(k.h, p, u[p].bytes) in m.files;
    }
  }

  lemma ProducedConforms(k: Tools, t: Tree, m: Manifest, keys: seq<SigningKey>, allow: seq<string>)
    requires ManifestOf(k, t, m)
    ensures Conforms(k.h, SignedTree(k, t, m, keys), m.files, allow) <==> PathsAllowed(m.files, allow)
  {
    ProducedHolds(k, t, m, keys);
    forall f | f in m.files ensures Paths.CheckPath(f.path, allow).Allowed? <==> Paths.Admitted(f.path, allow) {
      Paths.CheckPathIff(f.path, allow);
    }
  }

  lemma ProducedConformsIff(k: Tools, t: Tree, m: Manifest, keys: seq<SigningKey>, allow: seq<string>)
    requires ManifestOf(k, t, m)
    ensures Verdict(k.h, SignedTree(k, t, m, keys), m.files, allow).None? <==> PathsAllowed(m.files, allow)
  {
    ProducedConforms(k, t, m, keys, allow);
    VerdictNoneIffConforms(k.h, SignedTree(k, t, m, keys), m.files, allow);
  }

  /** Exactly when the gate accepts what the tool produced: every path is safe and
      allowed, the signatures are by two or more different provisioned keys and nobody
      else, and the version is above a readable stored one. The root it then publishes is
      the one the tool printed, and the one measured again from the signed directory. */
  lemma ProducedIsAcceptedIff(k: Tools, t: Tree, m: Manifest, keys: seq<SigningKey>, trusted: Signer.PublicKeys,
                              allow: seq<string>, versions: Versions)
    requires ManifestOf(k, t, m)
    requires forall s :: s in SignaturesOver(keys, Canonical(k.json, m)) ==> SigFile.Writable(s)
    ensures Clean(k, Request(k, t, m, keys, trusted, allow), versions) <==>
            && PathsAllowed(m.files, allow)
            && KeysSuffice(k.crypto, Canonical(k.json, m), trusted, SignaturesOver(keys, Canonical(k.json, m)))
            && Stored(versions, m.bundleId).Some? && Stored(versions, m.bundleId).value < m.version
    ensures Clean(k, Request(k, t, m, keys, trusted, allow), versions) ==>
              var r := Outcome(k, Request(k, t, m, keys, trusted, allow), versions, NoFault);
              r.answer == Accept && r.root == Some(ContentRoot(k.h, m.files))
              && ContentRoot(k.h, m.files) == ContentRoot(k.h, MeasuredPayload(k.h, SignedTree(k, t, m, keys)))
  {
    var s := Request(k, t, m, keys, trusted, allow);
    ProducedIsRead(k, t, m, keys, trusted, allow);
    PayloadIsUnmoved(k, t, m, keys);
    SignaturesIff(k, t, m, keys, trusted, allow, versions);
    ContentIff(k, t, m, keys, trusted, allow, versions);
    FreshIff(k, s, m, versions);
    CleanIff(k, s, versions);
  }

  /** The provisioned key with this id is the public half of this one: it verifies what the key
      signed, and nothing else. */
  ghost predicate Matches(c: Signer.Crypto, trusted: Signer.PublicKeys, key: SigningKey) {
    && (forall m :: c.decode(key.sign(m)).Some?)
    && (key.id in trusted ==> forall m, n :: c.ed25519(trusted[key.id], n, c.decode(key.sign(m)).value) <==> n == m)
  }

  /** With keys that match what is provisioned, the gate accepts what the tool produced exactly
      if two or more keys signed, no two with one id, all of them provisioned, every path is
      admitted, and the version is fresh. */
  lemma ProducedByKeysIsAcceptedIff(k: Tools, t: Tree, m: Manifest, keys: seq<SigningKey>,
                                    trusted: Signer.PublicKeys, allow: seq<string>, versions: Versions)
    requires ManifestOf(k, t, m) && forall key :: key in keys ==> Matches(k.crypto, trusted, key)
    requires forall s :: s in SignaturesOver(keys, Canonical(k.json, m)) ==> SigFile.Writable(s)
    ensures Clean(k, Request(k, t, m, keys, trusted, allow), versions) <==>
            && |keys| >= 2 && (forall i, j :: 0 <= i < j < |keys| ==> keys[i].id != keys[j].id)
            && (forall key :: key in keys ==> key.id in trusted)
            && (forall f :: f in m.files ==> Paths.Admitted(f.path, allow))
            && IsFresh(Request(k, t, m, keys, trusted, allow), versions, m)
  {
    var sigs := SignaturesOver(keys, Canonical(k.json, m));
    ProducedIsAcceptedIff(k, t, m, keys, trusted, allow, versions);
    ProducedIsRead(k, t, m, keys, trusted, allow);
    KeysSufficeIff(k.crypto, Canonical(k.json, m), trusted, keys);
    FreshIff(k, Request(k, t, m, keys, trusted, allow), m, versions);
    FreshSpelledOut(k, Request(k, t, m, keys, trusted, allow), versions, m);
  }

  lemma SignedIsGood(c: Signer.Crypto, canonical: string, trusted: Signer.PublicKeys, key: SigningKey)
    requires Matches(c, trusted, key)
    ensures Good(c, canonical, trusted, Sign(key, canonical)) <==> key.id in trusted
  {
    assert c.decode(key.sign(canonical)).Some?;
  }

  lemma KeysSufficeIff(c: Signer.Crypto, canonical: string, trusted: Signer.PublicKeys, keys: seq<SigningKey>)
    requires forall key :: key in keys ==> Matches(c, trusted, key)
    ensures KeysSuffice(c, canonical, trusted, SignaturesOver(keys, canonical)) <==>
            && |keys| >= 2 && (forall i, j :: 0 <= i < j < |keys| ==> keys[i].id != keys[j].id)
            && (forall key :: key in keys ==> key.id in trusted)
  {
    var sigs := SignaturesOver(keys, canonical);
    forall i | 0 <= i < |keys| ensures Good(c, canonical, trusted, sigs[i]) <==> keys[i].id in trusted {
      SignedIsGood(c, canonical, trusted, keys[i]);
    }
    assert (forall s :: s in sigs ==> Good(c, canonical, trusted, s)) <==>
           forall i :: 0 <= i < |sigs| ==> Good(c, canonical, trusted, sigs[i]);
    assert forall i :: 0 <= i < |keys| ==> KeyIdOf(sigs[i]) == keys[i].id;
    if DistinctKeys(sigs, KeyIdOf) {
      forall i, j | 0 <= i < j < |keys| ensures keys[i].id != keys[j].id {
        assert KeyIdOf(sigs[i]) != KeyIdOf(sigs[j]);
      }
    }
  }

  /** What the gate does not check of a manifest and the measured-state chain relies on, no
      path twice and no bundle metadata, holds of everything the tool produces. */
  lemma ProducedMeetsTheChain(k: Tools, t: Tree, m: Manifest, keys: seq<SigningKey>, trusted: Signer.PublicKeys,
                              allow: seq<string>, versions: Versions)
    requires ManifestOf(k, t, m) && Clean(k, Request(k, t, m, keys, trusted, allow), versions)
    ensures SealTool.Accepted(k.h, SignedTree(k, t, m, keys), m.files, allow)
  {
    ProducedIsRead(k, t, m, keys, trusted, allow);
    CleanConforms(k, Request(k, t, m, keys, trusted, allow), versions);
    MeasuredPayloadElements(k.h, t);
  }

  lemma SignatureComplaint(k: Tools, s: Submission, versions: Versions, raw: string, text: string)
    requires s.trusted.Some? && BytesAt(s.bundle, MANIFEST_JSON) == Some(raw) &&
            BytesAt(s.bundle, MANIFEST_SIG) == Some(text)
    ensures Complaint(k, s, versions, Signatures).None? <==>
            Signer.VerifySignaturesOutcome(k.crypto, raw, SigFile.LinesOf(text), s.trusted.value, REQUIRED_SIGNERS).Ok?
  {
    assert SignatureFile(s) == Some(text);
  }

  lemma SignaturesIff(k: Tools, t: Tree, m: Manifest, keys: seq<SigningKey>, trusted: Signer.PublicKeys,
                      allow: seq<string>, versions: Versions)
    requires ManifestOf(k, t, m)
    requires forall s :: s in SignaturesOver(keys, Canonical(k.json, m)) ==> SigFile.Writable(s)
    ensures Complaint(k, Request(k, t, m, keys, trusted, allow), versions, Signatures).None? <==>
            KeysSuffice(k.crypto, Canonical(k.json, m), trusted, SignaturesOver(keys, Canonical(k.json, m)))
  {
    FilesOfSignedTree(k, t, m, keys);
    SignatureComplaint(k, Request(k, t, m, keys, trusted, allow), versions, Canonical(k.json, m),
                       SigFile.TextOf(SignaturesOver(keys, Canonical(k.json, m))));
    WrittenSignaturesMeetIff(k.crypto, Canonical(k.json, m), trusted, SignaturesOver(keys, Canonical(k.json, m)));
  }

  lemma ContentIff(k: Tools, t: Tree, m: Manifest, keys: seq<SigningKey>, trusted: Signer.PublicKeys,
                   allow: seq<string>, versions: Versions)
    requires ManifestOf(k, t, m)
    ensures Complaint(k, Request(k, t, m, keys, trusted, allow), versions, Content).None? <==>
            PathsAllowed(m.files, allow)
  {
    ProducedIsRead(k, t, m, keys, trusted, allow);
    ProducedConformsIff(k, t, m, keys, allow);
    ContentComplaint(k, Request(k, t, m, keys, trusted, allow), m, versions);
  }

  lemma FreshIff(k: Tools, s: Submission, m: Manifest, versions: Versions)
    requires ReadManifest(k, s) == Some(m) && s.stateReadable
    ensures Complaint(k, s, versions, Freshness).None? <==>
            Stored(versions, m.bundleId).Some? && Stored(versions, m.bundleId).value < m.version
  {
  }
}
