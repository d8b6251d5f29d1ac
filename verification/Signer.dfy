/** pkg/signer and the signature half of pkg/manifest: the loops that decide whether
    enough distinct, trusted people signed.

    A line of a signature file is given by its whitespace-separated fields, or is one
    the line scanner refuses for its length. Base64, ed25519 and ssh-keygen are parameters. */
module Signer {
  import opened Text
  import opened Quorum

  datatype Line = TooLong | Fields(fields: seq<string>)

  datatype Crypto = Crypto(
    decode: string -> Option<string>,
    ed25519: (string, string, string) -> bool,
    ssh: (TrustedKey, string, Signature) -> bool)

  const ALG_ED25519 := "ed25519"
  const ALG_SSH := "ssh-ed25519"
  const ALG_SK := "sk-ssh-ed25519"
  const PUBLIC_KEY_SIZE := 32

  datatype Signature = Signature(alg: string, keyId: string, payload: string)

  datatype TrustedKey = TrustedKey(id: string, alg: string, ed25519: string, sshLine: string, signer: string,
                                   namedSigner: bool)

  type TrustStore = map<string, TrustedKey>

  datatype SigError =
    | ScanError | Malformed | UnknownAlgorithm | UntrustedSigner
    | BadSignature | DuplicateSigner | InsufficientSignatures

  /** The name two-person control counts over. */
  function SignerIdentity(k: TrustedKey): string { if k.signer == "" then "keyid:" + k.id else k.signer }

  function ParseSignature(c: Crypto, fields: seq<string>): Result<Signature, SigError> {
    if |fields| != 3 then Err(Malformed)
    else if fields[0] !in {ALG_ED25519, ALG_SSH, ALG_SK} then Err(UnknownAlgorithm)
    else
      match c.decode(fields[2])
      case None => Err(Malformed)
      case Some(payload) => Ok(Signature(fields[0], fields[1], payload))
  }

  /** Verify: the signature's algorithm selects the check, and the key has to agree. */
  function VerifyOne(c: Crypto, msg: string, sig: Signature, key: TrustedKey): Option<SigError> {
    if sig.keyId != key.id || sig.alg != key.alg then Some(BadSignature)
    else if sig.alg == ALG_ED25519 then
      if |key.ed25519| == PUBLIC_KEY_SIZE && c.ed25519(key.ed25519, msg, sig.payload) then None else Some(BadSignature)
    else if sig.alg == ALG_SSH || sig.alg == ALG_SK then
      if c.ssh(key, msg, sig) then None else Some(BadSignature)
    else Some(UnknownAlgorithm)
  }

  /** One line of VerifyAll, up to the duplicate checks. */
  function ReadLine(c: Crypto, msg: string, trust: TrustStore, line: Line): Result<Option<TrustedKey>, SigError> {
    match line
    case TooLong => Err(ScanError)
    case Fields(fields) =>
      if fields == [] then Ok(None)
      else
        match ParseSignature(c, fields)
        case Err(e) => Err(e)
        case Ok(sig) =>
          if sig.keyId !in trust then Err(UntrustedSigner)
          else
            match VerifyOne(c, msg, sig, trust[sig.keyId])
            case Some(e) => Err(e)
            case None => Ok(Some(trust[sig.keyId]))
  }

  function Reader(c: Crypto, msg: string, trust: TrustStore): Line -> Result<Option<TrustedKey>, SigError> {
    (line: Line) => ReadLine(c, msg, trust, line)
  }

  /** What VerifyAll answers. */
  function VerifyAllOutcome(c: Crypto, msg: string, lines: seq<Line>, trust: TrustStore,
      min: int): Result<seq<TrustedKey>, SigError> {
    Enough(Collect(lines, Reader(c, msg, trust), SignerIdentity, DuplicateSigner), min, InsufficientSignatures)
  }

  lemma ReadKeyIsTheStored(c: Crypto, msg: string, trust: TrustStore, line: Line)
    requires ReadLine(c, msg, trust, line).Ok? && ReadLine(c, msg, trust, line).value.Some?
    ensures var k := ReadLine(c, msg, trust, line).value.value; k.id in trust && trust[k.id] == k
  {
  }

  /** VerifyAll. The loop also refuses a key id it has seen; the contract does not
      mention that, because a repeated key is always a repeated person. */
  method VerifyAll(c: Crypto, msg: string, lines: seq<Line>, trust: TrustStore, min: int)
    returns (r: Result<seq<TrustedKey>, SigError>)
    ensures r == VerifyAllOutcome(c, msg, lines, trust, min)
    ensures r.Ok? <==> Meets(lines, JudgeBy(Reader(c, msg, trust), SignerIdentity), min)
    ensures r.Ok? ==> Names(r.value, SignerIdentity) == Signers(lines, JudgeBy(Reader(c, msg, trust), SignerIdentity))
  {
    ghost var read := Reader(c, msg, trust);
    EnoughIffMeets(lines, read, SignerIdentity, DuplicateSigner, min, InsufficientSignatures);
    var seenKey: set<string>, seenSigner: set<string> := {}, {};
    var signers: seq<TrustedKey> := [];
    for i := 0 to |lines|
      invariant Collect(lines[..i], read, SignerIdentity, DuplicateSigner) == Ok(signers)
      invariant forall w :: w in seenSigner <==> w in Names(signers, SignerIdentity)
      invariant |seenSigner| == |signers|
      invariant forall id :: id in seenKey ==> id in trust && SignerIdentity(trust[id]) in seenSigner
    {
      assert lines[..i + 1][..i] == lines[..i];
      var next := ReadLine(c, msg, trust, lines[i]);
      if next.Err? {
        assert Collect(lines[..i + 1], read, SignerIdentity, DuplicateSigner) == Err(next.error);
        CollectFailsEarly(lines, read, SignerIdentity, DuplicateSigner, i + 1);
        return Err(next.error);
      }
      if next.value.Some? {
        var key := next.value.value;
        ReadKeyIsTheStored(c, msg, trust, lines[i]);
        if key.id in seenKey || SignerIdentity(key) in seenSigner {
          assert Collect(lines[..i + 1], read, SignerIdentity, DuplicateSigner) == Err(DuplicateSigner);
          CollectFailsEarly(lines, read, SignerIdentity, DuplicateSigner, i + 1);
          return Err(DuplicateSigner);
        }
        assert Names(signers + [key], SignerIdentity) == Names(signers, SignerIdentity) + [SignerIdentity(key)];
        seenKey, seenSigner := seenKey + {key.id}, seenSigner + {SignerIdentity(key)};
        signers := signers + [key];
      }
    }
    assert lines[..|lines|] == lines;
    if |seenSigner| < min {
      return Err(InsufficientSignatures);
    }
    r := Ok(signers);
  }

  /* ---------- what a line has to be ---------- */

  /** The line is a signature over `msg` by this person: with a provisioned key of the
      algorithm it names, which somebody with a name holds, or its own id stands for. */
  ghost predicate SignedByPerson(c: Crypto, msg: string, trust: TrustStore, line: Line, who: string) {
    && line.Fields? && |line.fields| == 3 && line.fields[1] in trust && c.decode(line.fields[2]).Some?
    && var alg, key, payload := line.fields[0], trust[line.fields[1]], c.decode(line.fields[2]).value;
    && key.id == line.fields[1] && key.alg == alg
    && (if alg == "ed25519" then |key.ed25519| == 32 && c.ed25519(key.ed25519, msg, payload)
        else alg in {"ssh-ed25519", "sk-ssh-ed25519"} && c.ssh(key, msg, Signature(alg, key.id, payload)))
    && who == if key.signer == "" then "keyid:" + key.id else key.signer
  }

  /** Three fields, the first of them one of the three algorithms, the last decodable. */
  predicate WellFormedLine(c: Crypto, line: Line) {
    && line.Fields? && |line.fields| == 3 && line.fields[0] in {"ed25519", "ssh-ed25519", "sk-ssh-ed25519"}
    && c.decode(line.fields[2]).Some?
  }

  lemma LineIsJudged(c: Crypto, msg: string, trust: TrustStore, line: Line)
    ensures var j := JudgeBy(Reader(c, msg, trust), SignerIdentity)(line);
            && (j.Skip? <==> line == Fields([]))
            && forall who :: j == SignedBy(who) <==> SignedByPerson(c, msg, trust, line, who)
    ensures ReadLine(c, msg, trust, line).Err? ==>
              match ReadLine(c, msg, trust, line).error
              case ScanError => line.TooLong?
              case Malformed => line.Fields? && line.fields != [] && (|line.fields| != 3
                  || (line.fields[0] in {"ed25519", "ssh-ed25519", "sk-ssh-ed25519"} && c.decode(line.fields[2]).None?))
              case UnknownAlgorithm =>
                line.Fields? && |line.fields| == 3 && line.fields[0] !in {"ed25519", "ssh-ed25519", "sk-ssh-ed25519"}
              case UntrustedSigner => WellFormedLine(c, line) && line.fields[1] !in trust
              case BadSignature => WellFormedLine(c, line) && line.fields[1] in trust
              case _ => false
  {
    assert Reader(c, msg, trust)(line) == ReadLine(c, msg, trust, line);
  }

  predicate IsBlank(line: Line) { line == Fields([]) }

  ghost function People(c: Crypto, msg: string, trust: TrustStore): (Line, string) -> bool {
    (line: Line, who: string) => SignedByPerson(c, msg, trust, line, who)
  }

  /** VerifyAll accepts exactly the files in which every line is blank or a good signature,
      no two lines are by one person, and enough lines are not blank. */
  lemma AcceptedIff(c: Crypto, msg: string, lines: seq<Line>, trust: TrustStore, min: int)
    ensures VerifyAllOutcome(c, msg, lines, trust, min).Ok? <==>
            AllSigned(lines, IsBlank, People(c, msg, trust)) && |NotBlank(lines, IsBlank)| >= min
  {
    var judge := JudgeBy(Reader(c, msg, trust), SignerIdentity);
    forall line | line in lines ensures Judges(judge, line, IsBlank, People(c, msg, trust)) {
      LineIsJudged(c, msg, trust, line);
    }
    EnoughIffMeets(lines, Reader(c, msg, trust), SignerIdentity, DuplicateSigner, min, InsufficientSignatures);
    MeetsAs(lines, judge, min, IsBlank, People(c, msg, trust));
  }

  /** Behind lines that are accepted, one that cannot be decides: with its own fault, or as
      a repetition if somebody signs again. */
  lemma FirstRefusedLine(c: Crypto, msg: string, lines: seq<Line>, trust: TrustStore, min: int, k: nat)
    requires k < |lines| && AllSigned(lines[..k], IsBlank, People(c, msg, trust))
    ensures ReadLine(c, msg, trust, lines[k]).Err? ==>
              VerifyAllOutcome(c, msg, lines, trust, min) == Err(ReadLine(c, msg, trust, lines[k]).error)
    ensures forall who, j :: 0 <= j < k && SignedByPerson(c, msg, trust, lines[j], who)
                             && SignedByPerson(c, msg, trust, lines[k], who) ==>
              VerifyAllOutcome(c, msg, lines, trust, min) == Err(DuplicateSigner)
  {
    var read := Reader(c, msg, trust);
    var judge := JudgeBy(read, SignerIdentity);
    AcceptedIff(c, msg, lines[..k], trust, 0);
    FirstRefused(lines, read, SignerIdentity, DuplicateSigner, k);
    MeetsIff(lines[..k], judge, 0);
    forall who, j | 0 <= j < k && SignedByPerson(c, msg, trust, lines[j], who)
                    && SignedByPerson(c, msg, trust, lines[k], who)
      ensures VerifyAllOutcome(c, msg, lines, trust, min) == Err(DuplicateSigner)
    {
      LineIsJudged(c, msg, trust, lines[j]);
      LineIsJudged(c, msg, trust, lines[k]);
      assert judge(lines[..k][j]) == SignedBy(who) && Signs(lines[..k], judge, who);
    }
  }

  /** The test on key ids that the loop makes besides the test on people. */
  predicate RepeatsKey(found: seq<TrustedKey>, k: TrustedKey) { exists f :: f in found && f.id == k.id }

  /** Wherever that test would refuse, the test on people refuses too. */
  lemma {:induction false} KeyTestIsRedundant(c: Crypto, msg: string, trust: TrustStore, lines: seq<Line>, line: Line)
    requires Collect(lines, Reader(c, msg, trust), SignerIdentity, DuplicateSigner).Ok?
    requires ReadLine(c, msg, trust, line).Ok? && ReadLine(c, msg, trust, line).value.Some?
    ensures var found := Collect(lines, Reader(c, msg, trust), SignerIdentity, DuplicateSigner).value;
            var key := ReadLine(c, msg, trust, line).value.value;
            RepeatsKey(found, key) ==> SignerIdentity(key) in Names(found, SignerIdentity)
  {
    var found := Collect(lines, Reader(c, msg, trust), SignerIdentity, DuplicateSigner).value;
    var key := ReadLine(c, msg, trust, line).value.value;
    ReadKeyIsTheStored(c, msg, trust, line);
    FoundKeysAreStored(c, msg, trust, lines);
    if RepeatsKey(found, key) {
      var f :| f in found && f.id == key.id;
      var i :| 0 <= i < |found| && found[i] == f;
      assert Names(found, SignerIdentity)[i] == SignerIdentity(key);
    }
  }

  lemma {:induction false} FoundKeysAreStored(c: Crypto, msg: string, trust: TrustStore, lines: seq<Line>)
    requires Collect(lines, Reader(c, msg, trust), SignerIdentity, DuplicateSigner).Ok?
    ensures forall f :: f in Collect(lines, Reader(c, msg, trust), SignerIdentity, DuplicateSigner).value ==>
              f.id in trust && trust[f.id] == f
  {
    if lines != [] {
      FoundKeysAreStored(c, msg, trust, lines[..|lines| - 1]);
    }
  }

  /** Reordering the lines of a signature file changes no answer. */
  lemma SignatureOrderIsFree(c: Crypto, msg: string, s: seq<Line>, t: seq<Line>, trust: TrustStore, min: int)
    requires multiset(s) == multiset(t)
    ensures VerifyAllOutcome(c, msg, s, trust, min).Ok? <==> VerifyAllOutcome(c, msg, t, trust, min).Ok?
  {
    EnoughIffMeets(s, Reader(c, msg, trust), SignerIdentity, DuplicateSigner, min, InsufficientSignatures);
    EnoughIffMeets(t, Reader(c, msg, trust), SignerIdentity, DuplicateSigner, min, InsufficientSignatures);
    MeetsIsOrderFree(s, t, JudgeBy(Reader(c, msg, trust), SignerIdentity), min);
  }

  /* ---------- pkg/manifest: software keys only ---------- */

  type PublicKeys = map<string, string>

  function ReadManifestLine(c: Crypto, canonical: string, trusted: PublicKeys, line: Line):
    Result<Option<string>, SigError>
  {
    match line
    case TooLong => Err(ScanError)
    case Fields(fields) =>
      if fields == [] then Ok(None)
      else if |fields| != 3 || fields[0] != ALG_ED25519 then Err(BadSignature)
      else if fields[1] !in trusted then Err(UntrustedSigner)
      else
        match c.decode(fields[2])
        case None => Err(BadSignature)
        case Some(sig) => if c.ed25519(trusted[fields[1]], canonical, sig) then Ok(Some(fields[1]))
            else Err(BadSignature)
  }

  function ManifestReader(c: Crypto, canonical: string, trusted: PublicKeys):
    Line -> Result<Option<string>, SigError>
  {
    (line: Line) => ReadManifestLine(c, canonical, trusted, line)
  }

  function VerifySignaturesOutcome(c: Crypto, canonical: string, lines: seq<Line>, trusted: PublicKeys,
      min: int): Result<seq<string>, SigError> {
    Enough(Collect(lines, ManifestReader(c, canonical, trusted), Itself, DuplicateSigner), min, InsufficientSignatures)
  }

  lemma NamesOfNames(ids: seq<string>)
    ensures Names(ids, Itself) == ids
  {
    assert forall i :: 0 <= i < |ids| ==> Names(ids, Itself)[i] == Itself(ids[i]) == ids[i];
  }

  method VerifySignatures(c: Crypto, canonical: string, lines: seq<Line>, trusted: PublicKeys, min: int)
    returns (r: Result<seq<string>, SigError>)
    ensures r == VerifySignaturesOutcome(c, canonical, lines, trusted, min)
    ensures r.Ok? <==> Meets(lines, JudgeBy(ManifestReader(c, canonical, trusted), Itself), min)
    ensures r.Ok? ==> r.value == Signers(lines, JudgeBy(ManifestReader(c, canonical, trusted), Itself))
  {
    ghost var read := ManifestReader(c, canonical, trusted);
    EnoughIffMeets(lines, read, Itself, DuplicateSigner, min, InsufficientSignatures);
    var seen: set<string> := {};
    var order: seq<string> := [];
    for i := 0 to |lines|
      invariant Collect(lines[..i], read, Itself, DuplicateSigner) == Ok(order)
      invariant forall w :: w in seen <==> w in order
    {
      assert lines[..i + 1][..i] == lines[..i];
      NamesOfNames(order);
      var next := ReadManifestLine(c, canonical, trusted, lines[i]);
      if next.Err? {
        assert Collect(lines[..i + 1], read, Itself, DuplicateSigner) == Err(next.error);
        CollectFailsEarly(lines, read, Itself, DuplicateSigner, i + 1);
        return Err(next.error);
      }
      if next.value.Some? {
        var id := next.value.value;
        if id in seen {
          assert Collect(lines[..i + 1], read, Itself, DuplicateSigner) == Err(DuplicateSigner);
          CollectFailsEarly(lines, read, Itself, DuplicateSigner, i + 1);
          return Err(DuplicateSigner);
        }
        seen, order := seen + {id}, order + [id];
      }
    }
    assert lines[..|lines|] == lines;
    NamesOfNames(order);
    if |order| < min {
      return Err(InsufficientSignatures);
    }
    r := Ok(order);
  }

  /** The line is a signature over these bytes by the provisioned key with this id. */
  ghost predicate SignedByKey(c: Crypto, canonical: string, trusted: PublicKeys, line: Line, id: string) {
    && line.Fields? && |line.fields| == 3 && line.fields[0] == "ed25519" && line.fields[1] == id && id in trusted
    && c.decode(line.fields[2]).Some? && c.ed25519(trusted[id], canonical, c.decode(line.fields[2]).value)
  }

  ghost function Keys(c: Crypto, canonical: string, trusted: PublicKeys): (Line, string) -> bool {
    (line: Line, id: string) => SignedByKey(c, canonical, trusted, line, id)
  }

  lemma ManifestLineIsJudged(c: Crypto, canonical: string, trusted: PublicKeys, line: Line)
    ensures var j := JudgeBy(ManifestReader(c, canonical, trusted), Itself)(line);
            && (j.Skip? <==> line == Fields([]))
            && forall id :: j == SignedBy(id) <==> SignedByKey(c, canonical, trusted, line, id)
    ensures ReadManifestLine(c, canonical, trusted, line).Err? ==>
              match ReadManifestLine(c, canonical, trusted, line).error
              case ScanError => line.TooLong?
              case UntrustedSigner =>
                line.Fields? && |line.fields| == 3 && line.fields[0] == "ed25519" && line.fields[1] !in trusted
              case BadSignature =>
                line.Fields? && !(|line.fields| == 3 && line.fields[0] == "ed25519" && line.fields[1] !in trusted)
              case _ => false
  {
    assert ManifestReader(c, canonical, trusted)(line) == ReadManifestLine(c, canonical, trusted, line);
  }

  /** Collecting goes through exactly if all are signed, and finds one key a line. */
  lemma CollectsIff(c: Crypto, canonical: string, trusted: PublicKeys, lines: seq<Line>)
    ensures var r := Collect(lines, ManifestReader(c, canonical, trusted), Itself, DuplicateSigner);
            && (r.Ok? <==> AllSigned(lines, IsBlank, Keys(c, canonical, trusted)))
            && (r.Ok? ==> |r.value| == |NotBlank(lines, IsBlank)|)
  {
    var read := ManifestReader(c, canonical, trusted);
    var judge := JudgeBy(read, Itself);
    forall line | line in lines ensures Judges(judge, line, IsBlank, Keys(c, canonical, trusted)) {
      ManifestLineIsJudged(c, canonical, trusted, line);
    }
    CollectMeets(lines, read, Itself, DuplicateSigner);
    MeetsAs(lines, judge, 0, IsBlank, Keys(c, canonical, trusted));
    if Collect(lines, read, Itself, DuplicateSigner).Ok? {
      NamesOfNames(Collect(lines, read, Itself, DuplicateSigner).value);
    }
  }

  /** The line at `i` is the first that cannot be accepted. */
  ghost predicate FirstBad(c: Crypto, canonical: string, trusted: PublicKeys, lines: seq<Line>, i: nat)
    requires i < |lines|
  {
    && AllSigned(lines[..i], IsBlank, Keys(c, canonical, trusted))
    && !AllSigned(lines[..i + 1], IsBlank, Keys(c, canonical, trusted))
  }

  /** The fault of a line that comes after good ones. */
  ghost function Blame(c: Crypto, canonical: string, trusted: PublicKeys, line: Line): SigError {
    if line.TooLong? then ScanError
    else if exists id :: SignedByKey(c, canonical, trusted, line, id) then DuplicateSigner
    else if |line.fields| == 3 && line.fields[0] == "ed25519" && line.fields[1] !in trusted then UntrustedSigner
    else BadSignature
  }

  /** VerifySignatures accepts exactly the files in which every line is blank or a signature
      by a provisioned key, no two by one key, and enough of them; it answers with the fault
      of the first line that is neither, and with a lack of signers only if there is none. */
  lemma SignaturesDecide(c: Crypto, canonical: string, trusted: PublicKeys, lines: seq<Line>, min: int)
    ensures var r := VerifySignaturesOutcome(c, canonical, lines, trusted, min);
            var good, signed := AllSigned(lines, IsBlank, Keys(c, canonical, trusted)), |NotBlank(lines, IsBlank)|;
            && (r.Ok? <==> good && signed >= min)
            && (r == Err(InsufficientSignatures) <==> good && signed < min)
            && (!good ==> exists i :: 0 <= i < |lines| && FirstBad(c, canonical, trusted, lines, i))
            && forall i :: 0 <= i < |lines| && FirstBad(c, canonical, trusted, lines, i) ==>
                 r == Err(Blame(c, canonical, trusted, lines[i]))
  {
    CollectsIff(c, canonical, trusted, lines);
    forall i | 0 <= i < |lines| && FirstBad(c, canonical, trusted, lines, i)
      ensures VerifySignaturesOutcome(c, canonical, lines, trusted, min) ==
              Err(Blame(c, canonical, trusted, lines[i]))
    {
      FirstBadIsBlamed(c, canonical, trusted, lines, i);
    }
    NeverInsufficient(c, canonical, trusted, lines);
    if !AllSigned(lines, IsBlank, Keys(c, canonical, trusted)) {
      var _ := SomeFirstBad(c, canonical, trusted, lines);
    }
  }

  /** All lines signed, two of them at least. */
  ghost predicate TwoSigned(c: Crypto, canonical: string, trusted: PublicKeys, lines: seq<Line>) {
    && AllSigned(lines, IsBlank, Keys(c, canonical, trusted))
    && exists i, j :: 0 <= i < j < |lines| && !IsBlank(lines[i]) && !IsBlank(lines[j])
  }

  lemma TwoDecide(c: Crypto, canonical: string, trusted: PublicKeys, lines: seq<Line>)
    ensures var r := VerifySignaturesOutcome(c, canonical, lines, trusted, 2);
            && (r.Ok? <==> TwoSigned(c, canonical, trusted, lines))
            && (r == Err(InsufficientSignatures) <==>
                  AllSigned(lines, IsBlank, Keys(c, canonical, trusted)) && !TwoSigned(c, canonical, trusted, lines))
  {
    SignaturesDecide(c, canonical, trusted, lines, 2);
    TwoNotBlank(lines, IsBlank);
  }

  lemma SomeFirstBad(c: Crypto, canonical: string, trusted: PublicKeys, lines: seq<Line>) returns (i: nat)
    requires !AllSigned(lines, IsBlank, Keys(c, canonical, trusted))
    ensures i < |lines| && FirstBad(c, canonical, trusted, lines, i)
  {
    i := 0;
    assert lines[..|lines|] == lines;
    while AllSigned(lines[..i + 1], IsBlank, Keys(c, canonical, trusted))
      invariant i < |lines| && AllSigned(lines[..i], IsBlank, Keys(c, canonical, trusted))
      decreases |lines| - i
    {
      i := i + 1;
    }
  }

  lemma FirstBadIsBlamed(c: Crypto, canonical: string, trusted: PublicKeys, lines: seq<Line>, i: nat)
    requires i < |lines| && FirstBad(c, canonical, trusted, lines, i)
    ensures Collect(lines, ManifestReader(c, canonical, trusted), Itself, DuplicateSigner) ==
            Err(Blame(c, canonical, trusted, lines[i]))
  {
    var read := ManifestReader(c, canonical, trusted);
    CollectsIff(c, canonical, trusted, lines[..i]);
    CollectsIff(c, canonical, trusted, lines[..i + 1]);
    assert lines[..i + 1][..i] == lines[..i];
    ReadIsBlamed(c, canonical, trusted, lines[i]);
    CollectFailsEarly(lines, read, Itself, DuplicateSigner, i + 1);
  }

  lemma ReadIsBlamed(c: Crypto, canonical: string, trusted: PublicKeys, line: Line)
    ensures var r := ManifestReader(c, canonical, trusted)(line);
            match r
            case Err(e) => e == Blame(c, canonical, trusted, line)
            case Ok(None) => true
            case Ok(Some(id)) => Blame(c, canonical, trusted, line) == DuplicateSigner
  {
    ManifestLineIsJudged(c, canonical, trusted, line);
    var r := ReadManifestLine(c, canonical, trusted, line);
    assert ManifestReader(c, canonical, trusted)(line) == r;
    if r.Ok? && r.value.Some? {
      assert SignedByKey(c, canonical, trusted, line, r.value.value);
    }
  }

  lemma {:induction false} NeverInsufficient(c: Crypto, canonical: string, trusted: PublicKeys, lines: seq<Line>)
    ensures Collect(lines, ManifestReader(c, canonical, trusted), Itself, DuplicateSigner) !=
            Err(InsufficientSignatures)
  {
    if lines != [] {
      NeverInsufficient(c, canonical, trusted, lines[..|lines| - 1]);
    }
  }

  /** The same keys provisioned both ways, all software keys that name nobody. */
  ghost predicate UnnamedSoftwareKeys(trust: TrustStore, trusted: PublicKeys) {
    && trust.Keys == trusted.Keys
    && forall id :: id in trust ==>
         && trust[id].id == id && trust[id].alg == ALG_ED25519 && trust[id].ed25519 == trusted[id]
         && |trusted[id]| == PUBLIC_KEY_SIZE
         && (trust[id].signer == "" || trust[id].signer == "keyid:" + id)
  }

  /** On such keys the two packages accept the same files, with corresponding signers. */
  lemma BackendsAgree(c: Crypto, msg: string, lines: seq<Line>, trust: TrustStore, trusted: PublicKeys, min: int)
    requires UnnamedSoftwareKeys(trust, trusted)
    ensures VerifyAllOutcome(c, msg, lines, trust, min).Ok? <==>
            VerifySignaturesOutcome(c, msg, lines, trusted, min).Ok?
    ensures VerifyAllOutcome(c, msg, lines, trust, min).Ok? ==>
              var keys, ids := VerifyAllOutcome(c, msg, lines, trust, min).value,
                  VerifySignaturesOutcome(c, msg, lines, trusted, min).value;
              |keys| == |ids| && forall i :: 0 <= i < |ids| ==> SignerIdentity(keys[i]) == "keyid:" + ids[i]
  {
    var j1, j2 := JudgeBy(ManifestReader(c, msg, trusted), Itself), JudgeBy(Reader(c, msg, trust), SignerIdentity);
    forall line | line in lines
      ensures j2(line) == if j1(line).SignedBy? then SignedBy("keyid:" + j1(line).who) else j1(line)
    {
      LinesAgree(c, msg, line, trust, trusted);
    }
    MeetsRename(lines, j1, j2, "keyid:", min);
    SignersRename(lines, j1, j2, "keyid:");
    EnoughIffMeets(lines, Reader(c, msg, trust), SignerIdentity, DuplicateSigner, min, InsufficientSignatures);
    EnoughIffMeets(lines, ManifestReader(c, msg, trusted), Itself, DuplicateSigner, min, InsufficientSignatures);
    if VerifyAllOutcome(c, msg, lines, trust, min).Ok? {
      var keys, ids := VerifyAllOutcome(c, msg, lines, trust, min).value,
          VerifySignaturesOutcome(c, msg, lines, trusted, min).value;
      NamesOfNames(ids);
      forall i | 0 <= i < |ids| ensures |keys| == |ids| && SignerIdentity(keys[i]) == "keyid:" + ids[i] {
        assert |Names(keys, SignerIdentity)| == |ids|;
        assert Names(keys, SignerIdentity)[i] == SignerIdentity(keys[i]);
      }
      assert |Names(keys, SignerIdentity)| == |ids|;
    }
  }

  lemma LinesAgree(c: Crypto, msg: string, line: Line, trust: TrustStore, trusted: PublicKeys)
    requires UnnamedSoftwareKeys(trust, trusted)
    ensures ReadLine(c, msg, trust, line).Ok? <==> ReadManifestLine(c, msg, trusted, line).Ok?
    ensures ReadLine(c, msg, trust, line).Ok? ==>
              match ReadManifestLine(c, msg, trusted, line).value
              case None => ReadLine(c, msg, trust, line).value == None
              case Some(id) => ReadLine(c, msg, trust, line).value.Some? &&
                               SignerIdentity(ReadLine(c, msg, trust, line).value.value) == "keyid:" + id
  {
  }
}
