/** cmd/seal-tool's sign command, and the chain it closes: what the gate accepted, what
    was sealed, and what may be signed. */
module SealTool {
  import opened Text
  import opened ContentStore
  import TpmSeal
  import TpmLock
  import Ingress
  import Manifest
  import SigFile

  const SEED_SIZE := 32

  datatype UnsealError = PolicyMismatch | TpmFault

  datatype Decision = Signed | Refused(error: UnsealError) | Failed

  /** Go's crypto/ed25519 and base64, as the tool uses them. */
  datatype Signing = Signing(publicKey: string -> string, sign: (string, string) -> string)

  /** How writing the signature goes. The file is truncated first, so a write that fails
      later leaves the first bytes. */
  datatype SigWrite = Written | NotOpened | Torn(written: nat)

  /** What the file system will let this invocation do. */
  datatype Environment = Environment(artifactReadable: bool, sigWrite: SigWrite, sigRemovable: bool)

  /** `secret[:ed25519.SeedSize]`. The slice reaches into the spare capacity of the buffer
      the tool's output was read into, at least 512 bytes and zero past what was read, so a
      shorter secret is padded and does not panic. */
  function Seed(secret: string): (seed: string)
    ensures |seed| == 32
    ensures |secret| >= 32 ==> seed == secret[..32]
    ensures |secret| < 32 ==> secret <= seed && forall i :: |secret| <= i < 32 ==> seed[i] == '\0'
  {
    if |secret| >= SEED_SIZE then secret[..SEED_SIZE] else secret + Repeat(NUL, SEED_SIZE - |secret|)
  }

  function SignatureLine(alg: Signing, seed: string, body: string): string {
    "ed25519 " + alg.publicKey(seed) + " " + alg.sign(seed, body) + "\n"
  }

  /** A check of signatures that goes with the primitives: a signature is valid for the
      message it was made over, under the key of its seed, and for no other message. */
  ghost predicate Fits(alg: Signing, valid: (string, string, string) -> bool) {
    && (forall seed, m, n :: valid(alg.publicKey(seed), m, alg.sign(seed, n)) <==> m == n)
    && (forall seed :: SigFile.Plain(alg.publicKey(seed)))
    && (forall seed, m :: SigFile.Plain(alg.sign(seed, m)))
  }

  /** The text is three words: the algorithm, this key, and a signature that is valid under it
      for exactly this message. */
  ghost predicate Attests(valid: (string, string, string) -> bool, text: string, key: string, message: string) {
    var words := SigFile.Words(text);
    && |words| == 3 && words[0] == "ed25519" && words[1] == key
    && forall m :: valid(key, m, words[2]) <==> m == message
  }

  lemma LineAttests(alg: Signing, seed: string, body: string)
    ensures forall valid :: Fits(alg, valid) ==>
              Attests(valid, SignatureLine(alg, seed, body), alg.publicKey(seed), body)
  {
    forall valid | Fits(alg, valid)
      ensures Attests(valid, SignatureLine(alg, seed, body), alg.publicKey(seed), body)
    {
      var key, sig := alg.publicKey(seed), alg.sign(seed, body);
      assert SignatureLine(alg, seed, body) == "ed25519" + " " + (key + " " + (sig + "\n"));
      SigFile.AlgorithmIsPlain();
      SigFile.FirstWord("ed25519", key + " " + (sig + "\n"));
      SigFile.FirstWord(key, sig + "\n");
      SigFile.LastWord(sig);
    }
  }

  /** doSign, up to the point where files are touched. */
  function SignDecision(artifact: string, sigPath: string, env: Environment,
                        answer: Result<string, UnsealError>): Decision {
    if artifact == "" || sigPath == "" || !env.artifactReadable then Failed
    else
      match answer
      case Err(e) => Refused(e)
      case Ok(_) => if env.sigWrite.Written? then Signed else Failed
  }

  /** A signature is due, and only part of it gets written. */
  predicate WriteTears(artifact: string, sigPath: string, env: Environment, answer: Result<string, UnsealError>) {
    artifact != "" && sigPath != "" && env.artifactReadable && answer.Ok? && env.sigWrite.Torn?
  }

  /** The directory the tool reads the artifact from and writes the signature to. */
  class SignDir {
    var files: map<string, string>

    constructor (initial: map<string, string>)
      ensures files == initial
    {
      files := initial;
    }

    /** SIGNED leaves a file that attests this artifact, and nothing else, under the key of
        the released seed, and changes no other file; a torn write leaves the first bytes of
        that file. After REFUSED there is no signature file exactly when there was none or it
        could be removed: the tool ignores the error of the removal. */
    method DoSign(alg: Signing, artifact: string, sigPath: string, env: Environment,
                  answer: Result<string, UnsealError>) returns (d: Decision)
      requires env.artifactReadable && artifact != "" ==> artifact in files
      modifies this
      ensures d == SignDecision(artifact, sigPath, env, answer)
      ensures d.Signed? <==>
                artifact != "" && sigPath != "" && env.artifactReadable && answer.Ok? && env.sigWrite.Written?
      ensures d.Refused? <==> artifact != "" && sigPath != "" && env.artifactReadable && answer.Err?
      ensures d.Refused? ==> d.error == answer.error
      ensures d.Signed? ==>
        files == old(files)[sigPath := SignatureLine(alg, Seed(answer.value), old(files)[artifact])]
      ensures d.Signed? ==> forall valid :: Fits(alg, valid) ==>
        Attests(valid, files[sigPath], alg.publicKey(Seed(answer.value)), old(files)[artifact])
      ensures d.Refused? ==> (sigPath !in files <==> env.sigRemovable || sigPath !in old(files))
      ensures d.Refused? ==> files - {sigPath} == old(files) - {sigPath}
      ensures d.Failed? && !WriteTears(artifact, sigPath, env, answer) ==> files == old(files)
      ensures WriteTears(artifact, sigPath, env, answer) ==>
        d.Failed? && files == old(files)[sigPath :=
          Prefix(SignatureLine(alg, Seed(answer.value), old(files)[artifact]), env.sigWrite.written)]
    {
      if artifact == "" || sigPath == "" {
        return Failed;
      }
      if !env.artifactReadable {
        return Failed;
      }
      var body := files[artifact];
      if answer.Err? {
        if env.sigRemovable {
          files := files - {sigPath};
        }
        return Refused(answer.error);
      }
      var line := SignatureLine(alg, Seed(answer.value), body);
      LineAttests(alg, Seed(answer.value), body);
      match env.sigWrite {
        case NotOpened => d := Failed;
        case Torn(written) => files, d := files[sigPath := Prefix(line, written)], Failed;
        case Written => files, d := files[sigPath := line], Signed;
      }
    }
  }

  /* ---------- end to end ---------- */

  /** What tpmseal.Unseal returns for the answer recorded in a run. */
  function AnswerOf(e: TpmSeal.Event): Result<string, UnsealError>
    requires !e.SealedInto?
  {
    match e
    case Released(_, _, bytes) => Ok(bytes)
    case Refused(_, _) => Err(PolicyMismatch)
  }

  ghost predicate RendersHex(h: Hash) { forall m :: |h(m)| == 64 && TpmSeal.LowerHex(h(m)) }

  ghost predicate NulFreePaths(t: Tree) { forall p :: p in t && t[p].Regular? ==> NUL !in p }

  lemma HexTreesAreNulFree(h: Hash, t: Tree)
    requires RendersHex(h) && NulFreePaths(t)
    ensures NulFreeTree(h, t)
  {
  }

  /** A store the gate accepted, under the conditions it does not check itself. */
  ghost predicate Accepted(h: Hash, t: Tree, fs: seq<File>, allow: seq<string>) {
    Conforms(h, t, fs, allow) && DistinctKeys(fs, PathOf) && NoMetadataListed(fs)
  }

  lemma AcceptedRootIsMeasured(h: Hash, t: Tree, fs: seq<File>, allow: seq<string>)
    requires Accepted(h, t, fs, allow)
    ensures ContentRoot(h, fs) == ContentRoot(h, MeasuredPayload(h, t))
    ensures multiset(fs) == multiset(MeasuredPayload(h, t))
  {
    ConformingPayloadIff(h, t, fs, allow);
    DistinctKeysPermute(fs, fs, PathOf);
    SortBySorted(fs, PathOf);
    RootOrderIndependent(h, MeasuredPayloadDetermines(h, t), fs, SortBy(fs, PathOf));
  }

  ghost function MeasuredPayloadDetermines(h: Hash, t: Tree): (fs: seq<File>)
    ensures fs == MeasuredPayload(h, t) && KeyDetermines(fs, PathOf)
  {
    MeasuredPayloadElements(h, t);
    DistinctKeysPermute(MeasuredPayload(h, t), MeasuredPayload(h, t), PathOf);
    MeasuredPayload(h, t)
  }

  /** The unseal recorded at `i` is asked for the root `asked`, of a directory whose last
      sealing before it was under `root`; and the two roots, if they are roots, are told
      apart by the TPM's hashes. */
  ghost predicate AsksAfterSealing(tpm: TpmSeal.Tpm, history: seq<TpmSeal.Event>, i: nat, asked: string, root: string)
    requires i < |history|
  {
    var last := TpmSeal.LastSeal(history[..i], history[i].dir);
    && !history[i].SealedInto? && history[i].root == asked
    && last.Some? && last.value.0 == root
    && (TpmSeal.ValidRoot(asked) && TpmSeal.ValidRoot(root) ==> TpmLock.MeasurementsDistinguish(tpm, asked, root))
  }

  /** The whole chain. A store is accepted, its root is the last one sealed into a
      directory, and later the store, as it then is, is measured and a signature asked
      for. In every interleaving of TPM users, the tool says SIGNED exactly when the
      payload is still, byte for byte, the payload that was accepted; it then signs with
      the key of the secret last sealed there. */
  lemma SignedIffPayloadUnchanged(
      tpm: TpmSeal.Tpm, pcr: string, run: seq<TpmSeal.Action>, i: nat,
      h: Hash, accepted: Tree, fs: seq<File>, allow: seq<string>, now: Tree,
      artifact: string, sigPath: string, env: Environment)
    requires TpmSeal.OneLock(tpm)
    requires i < |TpmSeal.Exec(tpm, TpmSeal.Init(pcr), run).history|
    requires Accepted(h, accepted, fs, allow)
    requires AsksAfterSealing(tpm, TpmSeal.Exec(tpm, TpmSeal.Init(pcr), run).history, i,
                              ContentRoot(h, MeasuredPayload(h, now)), ContentRoot(h, fs))
    requires RendersHex(h) && NulFreePaths(accepted) && NulFreePaths(now)
    requires CollisionFree(h, MeasuredMessages(h, accepted, now))
    requires artifact != "" && sigPath != "" && env.artifactReadable && env.sigWrite.Written?
    ensures
      SignDecision(artifact, sigPath, env, AnswerOf(TpmSeal.Exec(tpm, TpmSeal.Init(pcr), run).history[i])).Signed?
      <==> PayloadBytes(now) == PayloadBytes(accepted)
    ensures
      PayloadBytes(now) == PayloadBytes(accepted) ==> multiset(MeasuredPayload(h, now)) == multiset(fs)
    ensures
      var history := TpmSeal.Exec(tpm, TpmSeal.Init(pcr), run).history;
      PayloadBytes(now) == PayloadBytes(accepted) ==>
        AnswerOf(history[i]) == Ok(TpmSeal.LastSeal(history[..i], history[i].dir).value.1)
  {
    var history := TpmSeal.Exec(tpm, TpmSeal.Init(pcr), run).history;
    var last := TpmSeal.LastSeal(history[..i], history[i].dir);
    TpmLock.UnsealAnswersForTheLastSeal(tpm, pcr, run, i);
    AcceptedRootIsMeasured(h, accepted, fs, allow);
    HexTreesAreNulFree(h, accepted);
    HexTreesAreNulFree(h, now);
    SameRootIffSameBytes(h, accepted, now);
    if TpmSeal.DecodeHex(history[i].root) == TpmSeal.DecodeHex(last.value.0) {
      TpmSeal.DecodeHexInjective(history[i].root, last.value.0);
    }
    if PayloadBytes(now) == PayloadBytes(accepted) {
      SameBytesSameFiles(h, now, accepted);
    }
  }

  /** The gate's own answer gives what the chain starts from, but for the two conditions
      that the gate does not check. */
  lemma PublishedIsAccepted(k: Ingress.Tools, s: Ingress.Submission, versions: Ingress.Versions, faults: Ingress.Faults,
                            m: Manifest.Manifest, root: string)
    requires Ingress.Outcome(k, s, versions, faults).root == Some(root) && Ingress.ReadManifest(k, s) == Some(m)
    requires DistinctKeys(m.files, PathOf) && NoMetadataListed(m.files)
    ensures Accepted(k.h, s.bundle, m.files, s.allow) && root == ContentRoot(k.h, m.files)
  {
    Ingress.PublishedIsStored(k, s, versions, faults);
    Ingress.CleanConforms(k, s, versions);
  }

  /** From the gate to the signature: the gate publishes a root, in whatever state and with
      whatever fault; that root is the last one sealed into a directory; later the store,
      as it then is, is measured and a signature asked for. In every interleaving of TPM
      users, the tool says SIGNED exactly when the payload is the one the gate accepted. */
  lemma PublishedThenSignedIff(
      k: Ingress.Tools, s: Ingress.Submission, versions: Ingress.Versions, faults: Ingress.Faults,
      m: Manifest.Manifest, root: string,
      tpm: TpmSeal.Tpm, pcr: string, run: seq<TpmSeal.Action>, i: nat, now: Tree,
      artifact: string, sigPath: string, env: Environment)
    requires Ingress.Outcome(k, s, versions, faults).root == Some(root) && Ingress.ReadManifest(k, s) == Some(m)
    requires DistinctKeys(m.files, PathOf) && NoMetadataListed(m.files)
    requires TpmSeal.OneLock(tpm) && i < |TpmSeal.Exec(tpm, TpmSeal.Init(pcr), run).history|
    requires AsksAfterSealing(tpm, TpmSeal.Exec(tpm, TpmSeal.Init(pcr), run).history, i,
                              ContentRoot(k.h, MeasuredPayload(k.h, now)), root)
    requires RendersHex(k.h) && NulFreePaths(s.bundle) && NulFreePaths(now)
    requires CollisionFree(k.h, MeasuredMessages(k.h, s.bundle, now))
    requires artifact != "" && sigPath != "" && env.artifactReadable && env.sigWrite.Written?
    ensures
      SignDecision(artifact, sigPath, env, AnswerOf(TpmSeal.Exec(tpm, TpmSeal.Init(pcr), run).history[i])).Signed?
      <==> PayloadBytes(now) == PayloadBytes(s.bundle)
    ensures
      var history := TpmSeal.Exec(tpm, TpmSeal.Init(pcr), run).history;
      PayloadBytes(now) == PayloadBytes(s.bundle) ==>
        AnswerOf(history[i]) == Ok(TpmSeal.LastSeal(history[..i], history[i].dir).value.1)
  {
    PublishedIsAccepted(k, s, versions, faults, m, root);
    SignedIffPayloadUnchanged(tpm, pcr, run, i, k.h, s.bundle, m.files, s.allow, now, artifact, sigPath, env);
  }
}
