/** cmd/ingress-verify: the gate on the boundary, for one run and over whole sequences of
    runs that share a state directory. */
module Ingress {
  import opened Text
  import opened ContentStore
  import opened Manifest
  import AuditLog
  import Signer
  import Quorum
  import SigFile

  const REQUIRED_SIGNERS := 2
  const MANIFEST_JSON := "manifest.json"
  const MANIFEST_SIG := "manifest.sig"

  /** Everything the gate uses that is not its own code. */
  datatype Tools = Tools(h: Hash, json: Json, crypto: Signer.Crypto)

  datatype Reason =
    | HashMismatch | UnmanifestedFile | MissingFile | AllowlistViolation | UnsafePath
    | UntrustedSigner | InsufficientSignatures | DuplicateSigner | BadSignature
    | ManifestParse | VersionRollback | Unverifiable

  /** The checks, in the order the gate notes them; the last is the root it publishes. */
  datatype CheckName = ManifestPresent | ManifestCanonical | TrustedKeys | Signatures | Freshness | Content | RootNoted

  datatype Failure = Failure(check: CheckName, reason: Reason)

  /** One run's inputs: the unpacked bundle, the provisioned keys (None if they cannot be
      loaded), the allowlist, and whether the version file can be read. */
  datatype Submission = Submission(bundle: Tree, trusted: Option<Signer.PublicKeys>, allow: seq<string>,
                                   stateReadable: bool)

  function SigReason(e: Signer.SigError): Reason {
    match e
    case UntrustedSigner => Reason.UntrustedSigner
    case DuplicateSigner => Reason.DuplicateSigner
    case InsufficientSignatures => Reason.InsufficientSignatures
    case BadSignature => Reason.BadSignature
    case _ => Unverifiable
  }

  function ContentReason(e: ContentError): Reason {
    match e
    case HashMismatch => Reason.HashMismatch
    case UnmanifestedFile => Reason.UnmanifestedFile
    case MissingFile => Reason.MissingFile
    case AllowlistViolation => Reason.AllowlistViolation
    case UnsafePath => Reason.UnsafePath
  }

  function Complaining(e: Option<ContentError>): Option<Reason> {
    if e.None? then None else Some(ContentReason(e.value))
  }

  /* ---------- stored versions ---------- */

  /** The version files, by the sanitised bundle id in their name. */
  type Versions = map<string, string>

  function Sanitise(bundleId: string): string {
    if bundleId == "" then ""
    else [if bundleId[0] == '/' then '_' else bundleId[0]] + Sanitise(bundleId[1..])
  }

  /** Two bundle ids share a version file exactly if they differ in nothing but slashes and
      underscores at the same places. */
  lemma {:induction false} SameVersionFileIff(a: string, b: string)
    ensures Sanitise(a) == Sanitise(b) <==>
            |a| == |b| && forall i :: 0 <= i < |a| ==> a[i] == b[i] || {a[i], b[i]} == {'/', '_'}
    ensures |Sanitise(a)| == |a| && '/' !in Sanitise(a)
    ensures '/' !in a ==> Sanitise(a) == a
  {
    if a != "" && b != "" {
      SameVersionFileIff(a[1..], b[1..]);
      assert Sanitise(a)[1..] == Sanitise(a[1..]) && Sanitise(b)[1..] == Sanitise(b[1..]);
      assert a == [a[0]] + a[1..];
      assert {a[0], b[0]} == {'/', '_'} <==> (a[0] == '/' && b[0] == '_') || (a[0] == '_' && b[0] == '/');
    } else if a != "" {
      SameVersionFileIff(a[1..], b);
      assert a == [a[0]] + a[1..];
    }
  }

  /** What the version file says; None if it cannot be understood. */
  function Stored(versions: Versions, bundleId: string): Option<nat> {
    if Sanitise(bundleId) !in versions then Some(0) else ParseUint64(TrimSpace(versions[Sanitise(bundleId)]))
  }

  function VersionText(v: Version): string { Digits(v) + "\n" }

  lemma TrimDigits(s: string)
    requires AllDigits(s)
    ensures TrimSpace(s + "\n") == s
  {
    assert (s + "\n")[..|s|] == s;
    assert s != "" ==> !IsSpace(s[|s| - 1]) && !IsSpace(s[0]);
    assert TrimRight(s + "\n", IsSpace) == TrimRight(s, IsSpace) == s;
  }

  lemma WrittenVersionIsRead(v: Version)
    ensures ParseUint64(TrimSpace(VersionText(v))) == Some(v)
  {
    TrimDigits(Digits(v));
    ParseDigits(v);
  }

  /* ---------- the checks ---------- */

  function BytesAt(t: Tree, p: string): Option<string> {
    if p in t && t[p].Regular? then Some(t[p].bytes) else None
  }

  function ReadManifest(k: Tools, s: Submission): Option<Manifest> {
    match BytesAt(s.bundle, MANIFEST_JSON)
    case None => None
    case Some(raw) => Parse(k.json, raw)
  }

  /** The signature file: a missing one counts as empty. */
  function SignatureFile(s: Submission): Option<string> {
    if MANIFEST_SIG !in s.bundle then Some("") else BytesAt(s.bundle, MANIFEST_SIG)
  }

  function SignatureAnswer(k: Tools, s: Submission): Result<seq<string>, Signer.SigError>
    requires BytesAt(s.bundle, MANIFEST_JSON).Some? && s.trusted.Some?
  {
    match SignatureFile(s)
    case None => Err(Signer.SigError.BadSignature)
    case Some(text) =>
      Signer.VerifySignaturesOutcome(k.crypto, BytesAt(s.bundle, MANIFEST_JSON).value, SigFile.LinesOf(text),
          s.trusted.value, REQUIRED_SIGNERS)
  }

  /** What each check says on its own, for inputs on which it makes sense. */
  ghost function Complaint(k: Tools, s: Submission, versions: Versions, c: CheckName): Option<Reason> {
    match c
    case ManifestPresent => if BytesAt(s.bundle, MANIFEST_JSON).None? then Some(ManifestParse) else None
    case ManifestCanonical => if ReadManifest(k, s).None? then Some(ManifestParse) else None
    case TrustedKeys => if s.trusted.None? then Some(Unverifiable) else None
    case Signatures =>
      if BytesAt(s.bundle, MANIFEST_JSON).None? || s.trusted.None? then None
      else
        (match SignatureAnswer(k, s)
         case Ok(_) => None
         case Err(e) => Some(SigReason(e)))
    case Freshness =>
      if ReadManifest(k, s).None? then None
      else if !s.stateReadable then Some(Unverifiable)
      else
        (match Stored(versions, ReadManifest(k, s).value.bundleId)
         case None => Some(VersionRollback)
         case Some(last) => if ReadManifest(k, s).value.version <= last then Some(VersionRollback) else None)
    case Content =>
      if ReadManifest(k, s).None? then None
      else
        Complaining(Verdict(k.h, s.bundle, ReadManifest(k, s).value.files, s.allow))
    case RootNoted => None
  }

  function ChecksInOrder(): seq<CheckName> {
    [ManifestPresent, ManifestCanonical, TrustedKeys, Signatures, Freshness, Content, RootNoted]
  }

  ghost predicate Clean(k: Tools, s: Submission, versions: Versions): (clean: bool)
    ensures clean ==> ReadManifest(k, s).Some?
  {
    assert Complaint(k, s, versions, ManifestCanonical).None? <==> ReadManifest(k, s).Some?;
    forall c :: Complaint(k, s, versions, c).None?
  }

  /** `f` is the complaint of the earliest check that complains. */
  ghost predicate Earliest(k: Tools, s: Submission, versions: Versions, f: Failure) {
    exists i :: 0 <= i < 7 && EarliestAt(k, s, versions, f, i)
  }

  ghost predicate EarliestAt(k: Tools, s: Submission, versions: Versions, f: Failure, i: nat)
    requires i < 7
  {
    && ChecksInOrder()[i] == f.check && Complaint(k, s, versions, f.check) == Some(f.reason)
    && forall j :: 0 <= j < i ==> Complaint(k, s, versions, ChecksInOrder()[j]).None?
  }

  /* ---------- the gate ---------- */

  /** What happens to the run after its checks: the state directory, the version file and
      the audit log can each fail. A write that fails half way leaves the first `written`
      bytes. A log directory that cannot be made is reported and otherwise ignored. */
  datatype Faults = NoFault | MkdirFails | OpenFails | TornWrite(written: nat) | LogFails | LogDirFails

  /** What a run meets outside its own code: how storing a version goes (NoFault, MkdirFails,
      OpenFails or TornWrite), whether the log directory can be made and the log opened, and
      how the append goes. */
  datatype Surroundings = Surroundings(storing: Faults, logDir: bool, logOpens: bool, append: AuditLog.WriteOutcome)

  /** What the run writes to its log: the form of entries, the time, and the detail of an
      acceptance and of a rejection. */
  datatype Recording = Recording(form: AuditLog.Form, ts: string,
                                 accepted: (Manifest, string) -> string, rejected: Reason -> string)

  const ACCEPTED := "INGRESS_ACCEPT"
  const REJECTED := "INGRESS_REJECT"

  predicate LogVerifies(form: AuditLog.Form, log: AuditLog.Content) {
    AuditLog.Verifies(form, AuditLog.Scanned(log))
  }

  /** How the log fares: a directory that cannot be made is passed over, and a log that is
      broken, or cannot be opened or appended to, fails the run. */
  function LogFault(form: AuditLog.Form, log: AuditLog.Content, w: Surroundings): Faults {
    if !w.logDir then LogDirFails
    else if !w.logOpens || !LogVerifies(form, log) || !w.append.Written? then LogFails
    else NoFault
  }

  predicate StoringFails(w: Surroundings) { w.storing.MkdirFails? || w.storing.OpenFails? || w.storing.TornWrite? }

  /** The fault a run meets first: an accepting one stores its version before it logs. */
  function FaultMet(accepting: bool, form: AuditLog.Form, log: AuditLog.Content, w: Surroundings): Faults {
    if accepting && StoringFails(w) then w.storing else LogFault(form, log, w)
  }

  /** The entry that follows what is in a clean log. */
  function EntryAfter(rec: Recording, log: AuditLog.Content, event: string, detail: string): AuditLog.Entry
    requires LogVerifies(rec.form, log)
  {
    AuditLog.NextEntry(rec.form, AuditLog.HandleAt(rec.form, AuditLog.Scanned(log)), rec.ts, event, detail)
  }

  /** The log after a run tried to append this event to it. */
  function LogAfter(rec: Recording, log: AuditLog.Content, w: Surroundings, event: string, detail: string):
    AuditLog.Content
  {
    if !w.logDir || !w.logOpens || !LogVerifies(rec.form, log) then log
    else AuditLog.After(log, rec.form.enc(EntryAfter(rec, log, event, detail)), w.append)
  }

  datatype Answer = Accept | Reject(reason: Reason) | Error

  /** The answer of one run, the root it prints, and the version files after it. */
  datatype RunResult = RunResult(answer: Answer, root: Option<string>, versions: Versions)

  function AfterAccept(versions: Versions, m: Manifest, root: string, faults: Faults): RunResult {
    var key := Sanitise(m.bundleId);
    match faults
    case MkdirFails => RunResult(Error, None, versions)
    case OpenFails => RunResult(Error, None, versions)
    case TornWrite(written) => RunResult(Error, None, versions[key := Prefix(VersionText(m.version), written)])
    case LogFails => RunResult(Error, Some(root), versions[key := VersionText(m.version)])
    case _ => RunResult(Accept, Some(root), versions[key := VersionText(m.version)])
  }

  function AfterReject(versions: Versions, reason: Reason, faults: Faults): RunResult {
    RunResult(if faults.LogFails? then Error else Reject(reason), None, versions)
  }

  /** One run of the gate as a function of its inputs and the stored versions. */
  ghost function Outcome(k: Tools, s: Submission, versions: Versions, faults: Faults): RunResult {
    if Clean(k, s, versions) then
      var m := ReadManifest(k, s).value;
      AfterAccept(versions, m, ContentRoot(k.h, m.files), faults)
    else
      EarliestExists(k, s, versions);
      var f :| Earliest(k, s, versions, f);
      AfterReject(versions, f.reason, faults)
  }

  /** The notes of a run whose first `n` checks passed. */
  function Passes(n: nat): (notes: seq<(CheckName, bool)>)
    requires n <= 7
    ensures |notes| == n
  {
    if n == 0 then [] else Passes(n - 1) + [(ChecksInOrder()[n - 1], true)]
  }

  /** What the checks report: everything passed, with the manifest and the root to publish;
      or the earliest check that complains, after notes that the ones before it passed. */
  ghost predicate Judged(k: Tools, s: Submission, versions: Versions, notes: seq<(CheckName, bool)>,
                         r: Result<(Manifest, string), Failure>) {
    match r
    case Ok((m, root)) =>
      Clean(k, s, versions) && ReadManifest(k, s) == Some(m) && root == ContentRoot(k.h, m.files) && notes == Passes(7)
    case Err(f) =>
      Earliest(k, s, versions, f) && !Clean(k, s, versions)
      && exists i :: 0 <= i < 7 && f.check == ChecksInOrder()[i] && notes == Passes(i) + [(f.check, false)]
  }

  class Gate {
    var versions: Versions
    var checks: seq<(CheckName, bool)>

    constructor (versions: Versions)
      ensures this.versions == versions && checks == []
    {
      this.versions := versions;
      checks := [];
    }

    method Note(c: CheckName, ok: bool)
      modifies this`checks
      ensures checks == old(checks) + [(c, ok)]
    {
      checks := checks + [(c, ok)];
    }

    method LastAccepted(s: Submission, bundleId: string) returns (r: Result<nat, Reason>)
      ensures r == if !s.stateReadable then Err(Unverifiable)
                   else if Stored(versions, bundleId).None? then Err(VersionRollback)
                   else Ok(Stored(versions, bundleId).value)
      ensures s.stateReadable && Sanitise(bundleId) !in versions ==> r == Ok(0)
      ensures s.stateReadable && Sanitise(bundleId) in versions ==>
                var read := ParseUint64(TrimSpace(versions[Sanitise(bundleId)]));
                r == if read.None? then Err(VersionRollback) else Ok(read.value)
    {
      if !s.stateReadable {
        return Err(Unverifiable);
      }
      if Sanitise(bundleId) !in versions {
        return Ok(0);
      }
      var v := ParseUint64(TrimSpace(versions[Sanitise(bundleId)]));
      r := if v.Some? then Ok(v.value) else Err(VersionRollback);
    }

    method CheckFresh(ghost k: Tools, s: Submission, m: Manifest) returns (r: Option<Reason>)
      requires ReadManifest(k, s) == Some(m)
      ensures r == Complaint(k, s, versions, Freshness)
    {
      var last := LastAccepted(s, m.bundleId);
      if last.Err? {
        return Some(last.error);
      }
      r := if m.version <= last.value then Some(VersionRollback) else None;
    }

    /** Note a failed check and name it as the deciding one. */
    method Fail(ghost k: Tools, ghost s: Submission, i: nat, reason: Reason)
      returns (r: Result<(Manifest, string), Failure>)
      requires i < 7 && checks == Passes(i) && PassedUpTo(k, s, versions, i)
      requires Complaint(k, s, versions, ChecksInOrder()[i]) == Some(reason)
      modifies this`checks
      ensures r.Err? && Judged(k, s, versions, checks, r)
    {
      Decided(k, s, versions, i, reason);
      Note(ChecksInOrder()[i], false);
      r := Err(Failure(ChecksInOrder()[i], reason));
    }

    /** verify: the checks in order; the first that complains decides. */
    method Verify(k: Tools, s: Submission)
      returns (r: Result<(Manifest, string), Failure>)
      requires checks == []
      modifies this`checks
      ensures Judged(k, s, versions, checks, r)
    {
      OpeningChecks(k, s, versions);
      var raw := BytesAt(s.bundle, MANIFEST_JSON);
      if raw.None? {
        r := Fail(k, s, 0, ManifestParse);
        return;
      }
      Note(ManifestPresent, true);
      var parsed := Parse(k.json, raw.value);
      if parsed.None? {
        r := Fail(k, s, 1, ManifestParse);
        return;
      }
      Note(ManifestCanonical, true);
      if s.trusted.None? {
        r := Fail(k, s, 2, Unverifiable);
        return;
      }
      Note(TrustedKeys, true);
      r := VerifySigned(k, s, parsed.value);
    }

    method VerifySigned(k: Tools, s: Submission, m: Manifest)
      returns (r: Result<(Manifest, string), Failure>)
      requires s.trusted.Some? && ReadManifest(k, s) == Some(m)
      requires PassedUpTo(k, s, versions, 3) && checks == Passes(3)
      modifies this`checks
      ensures Judged(k, s, versions, checks, r)
    {
      var problem := CheckSignatures(k, s, versions);
      if problem.Some? {
        r := Fail(k, s, 3, problem.value);
        return;
      }
      OneMore(k, s, versions, 3);
      Note(Signatures, true);
      problem := CheckFresh(k, s, m);
      if problem.Some? {
        r := Fail(k, s, 4, problem.value);
        return;
      }
      OneMore(k, s, versions, 4);
      Note(Freshness, true);
      r := VerifyContent(k, s, m);
    }

    method VerifyContent(k: Tools, s: Submission, m: Manifest)
      returns (r: Result<(Manifest, string), Failure>)
      requires ReadManifest(k, s) == Some(m)
      requires PassedUpTo(k, s, versions, 5) && checks == Passes(5)
      modifies this`checks
      ensures Judged(k, s, versions, checks, r)
    {
      var problem := CheckContent(k, s, m);
      ContentComplaint(k, s, m, versions);
      if problem.Some? {
        r := Fail(k, s, 5, problem.value);
        return;
      }
      OneMore(k, s, versions, 5);
      Note(Content, true);
      var root := ComputeContentRoot(k.h, m.files);
      Note(RootNoted, true);
      NothingDecided(k, s, versions);
      r := Ok((m, root));
    }

    /** appendLog: whether the run may go on. */
    method AppendLog(log: AuditLog.LogFile, rec: Recording, w: Surroundings, event: string, detail: string)
      returns (ok: bool)
      modifies log
      ensures ok <==> !LogFault(rec.form, old(log.content), w).LogFails?
      ensures log.content == LogAfter(rec, old(log.content), w, event, detail)
    {
      if !w.logDir {
        return true;
      }
      if !w.logOpens {
        return false;
      }
      var l := AuditLog.Log.Open(rec.form, log);
      if l == null {
        return false;
      }
      var entry := l.Append(rec.form, rec.ts, event, detail, w.append);
      ok := entry.Some?;
    }

    /** One run: the checks, then accept or reject, each recorded in the log. */
    method Run(k: Tools, s: Submission, log: AuditLog.LogFile, rec: Recording, w: Surroundings)
      returns (answer: Answer, root: Option<string>)
      requires checks == []
      modifies this, log
      ensures RunResult(answer, root, versions) ==
              Outcome(k, s, old(versions), FaultMet(Clean(k, s, old(versions)), rec.form, old(log.content), w))
      ensures Logged(k, s, old(versions), rec, old(log.content), w, log.content)
    {
      var verified := Verify(k, s);
      if verified.Err? {
        RejectedAs(k, s, versions, verified.error);
        var logged := AppendLog(log, rec, w, REJECTED, rec.rejected(verified.error.reason));
        return if logged then Reject(verified.error.reason) else Error, None;
      }
      var m := verified.value.0;
      AcceptedAs(k, s, versions, m);
      if w.storing.MkdirFails? || w.storing.OpenFails? {
        return Error, None;
      }
      if w.storing.TornWrite? {
        versions := versions[Sanitise(m.bundleId) := Prefix(VersionText(m.version), w.storing.written)];
        return Error, None;
      }
      versions := versions[Sanitise(m.bundleId) := VersionText(m.version)];
      root := Some(verified.value.1);
      var logged := AppendLog(log, rec, w, ACCEPTED, rec.accepted(m, verified.value.1));
      answer := if logged then Accept else Error;
    }
  }

  /** What one run leaves in the log: nothing new if it stops before, and otherwise an
      attempt to append its decision. */
  ghost predicate Logged(k: Tools, s: Submission, versions: Versions, rec: Recording, before: AuditLog.Content,
                         w: Surroundings, after: AuditLog.Content) {
    if Clean(k, s, versions) then
      var m := ReadManifest(k, s).value;
      after == if StoringFails(w) then before
               else LogAfter(rec, before, w, ACCEPTED, rec.accepted(m, ContentRoot(k.h, m.files)))
    else
      exists f :: Earliest(k, s, versions, f) && after == LogAfter(rec, before, w, REJECTED, rec.rejected(f.reason))
  }

  lemma RejectedAs(k: Tools, s: Submission, versions: Versions, f: Failure)
    requires Earliest(k, s, versions, f) && !Clean(k, s, versions)
    ensures forall faults :: Outcome(k, s, versions, faults) == AfterReject(versions, f.reason, faults)
  {
    EarliestIsUnique(k, s, versions, f);
  }

  lemma AcceptedAs(k: Tools, s: Submission, versions: Versions, m: Manifest)
    requires Clean(k, s, versions) && ReadManifest(k, s) == Some(m)
    ensures forall faults ::
              Outcome(k, s, versions, faults) == AfterAccept(versions, m, ContentRoot(k.h, m.files), faults)
  {
  }

  method CheckSignatures(k: Tools, s: Submission, ghost versions: Versions) returns (r: Option<Reason>)
    requires BytesAt(s.bundle, MANIFEST_JSON).Some? && s.trusted.Some?
    ensures r == Complaint(k, s, versions, Signatures)
  {
    var file := SignatureFile(s);
    if file.None? {
      return Some(Reason.BadSignature);
    }
    var signers := Signer.VerifySignatures(k.crypto, BytesAt(s.bundle, MANIFEST_JSON).value,
                                           SigFile.LinesOf(file.value), s.trusted.value, REQUIRED_SIGNERS);
    r := if signers.Err? then Some(SigReason(signers.error)) else None;
  }

  lemma ContentComplaint(k: Tools, s: Submission, m: Manifest, versions: Versions)
    requires ReadManifest(k, s) == Some(m)
    ensures Complaint(k, s, versions, Content) == Complaining(Verdict(k.h, s.bundle, m.files, s.allow))
  {
  }

  method CheckContent(k: Tools, s: Submission, m: Manifest) returns (r: Option<Reason>)
    ensures r == Complaining(Verdict(k.h, s.bundle, m.files, s.allow))
  {
    var problem := VerifyAgainst(k.h, s.bundle, m.files, s.allow);
    r := Complaining(problem);
  }

  /** The first `n` checks do not complain. */
  ghost predicate PassedUpTo(k: Tools, s: Submission, versions: Versions, n: nat)
    requires n <= 7
  {
    forall j :: 0 <= j < n ==> Complaint(k, s, versions, ChecksInOrder()[j]).None?
  }

  lemma OneMore(k: Tools, s: Submission, versions: Versions, n: nat)
    requires n < 7 && PassedUpTo(k, s, versions, n) && Complaint(k, s, versions, ChecksInOrder()[n]).None?
    ensures PassedUpTo(k, s, versions, n + 1)
  {
  }

  lemma Decided(k: Tools, s: Submission, versions: Versions, i: nat, reason: Reason)
    requires i < 7 && PassedUpTo(k, s, versions, i)
    requires Complaint(k, s, versions, ChecksInOrder()[i]) == Some(reason)
    ensures Earliest(k, s, versions, Failure(ChecksInOrder()[i], reason)) && !Clean(k, s, versions)
  {
    assert EarliestAt(k, s, versions, Failure(ChecksInOrder()[i], reason), i);
  }

  /** What the presence of a manifest and of keys decides. */
  lemma OpeningChecks(k: Tools, s: Submission, versions: Versions)
    ensures BytesAt(s.bundle, MANIFEST_JSON).None? ==> Earliest(k, s, versions, Failure(ManifestPresent, ManifestParse))
    ensures BytesAt(s.bundle, MANIFEST_JSON).Some? && ReadManifest(k, s).None? ==>
              Earliest(k, s, versions, Failure(ManifestCanonical, ManifestParse))
    ensures ReadManifest(k, s).Some? && s.trusted.None? ==> Earliest(k, s, versions, Failure(TrustedKeys, Unverifiable))
    ensures ReadManifest(k, s).Some? && s.trusted.Some? ==> PassedUpTo(k, s, versions, 3)
    ensures ReadManifest(k, s).None? || s.trusted.None? ==> !Clean(k, s, versions)
  {
    var order := ChecksInOrder();
    if BytesAt(s.bundle, MANIFEST_JSON).None? {
      Decided(k, s, versions, 0, ManifestParse);
    } else if ReadManifest(k, s).None? {
      Decided(k, s, versions, 1, ManifestParse);
    } else if s.trusted.None? {
      Decided(k, s, versions, 2, Unverifiable);
    }
  }

  lemma NothingDecided(k: Tools, s: Submission, versions: Versions)
    requires PassedUpTo(k, s, versions, 6)
    ensures Clean(k, s, versions)
  {
    forall c ensures Complaint(k, s, versions, c).None? {
      var i := EveryCheckHasAPlace(c);
      assert i == 6 ==> c == RootNoted;
    }
  }

  lemma EveryCheckHasAPlace(c: CheckName) returns (i: nat)
    ensures i < 7 && ChecksInOrder()[i] == c
  {
    i := match c
      case ManifestPresent => 0
      case ManifestCanonical => 1
      case TrustedKeys => 2
      case Signatures => 3
      case Freshness => 4
      case Content => 5
      case RootNoted => 6;
  }

  lemma EarliestExists(k: Tools, s: Submission, versions: Versions)
    requires !Clean(k, s, versions)
    ensures exists f :: Earliest(k, s, versions, f)
  {
    var i := 0;
    while i < 6 && Complaint(k, s, versions, ChecksInOrder()[i]).None?
      invariant 0 <= i <= 6 && PassedUpTo(k, s, versions, i)
    {
      i := i + 1;
    }
    if i == 6 {
      NothingDecided(k, s, versions);
    } else {
      Decided(k, s, versions, i, Complaint(k, s, versions, ChecksInOrder()[i]).value);
    }
  }

  /** There is at most one earliest complaint, and none on a clean submission. */
  lemma EarliestIsUnique(k: Tools, s: Submission, versions: Versions, f: Failure)
    requires Earliest(k, s, versions, f)
    ensures !Clean(k, s, versions)
    ensures forall g :: Earliest(k, s, versions, g) ==> g == f
  {
    var i :| 0 <= i < 7 && EarliestAt(k, s, versions, f, i);
    forall g | Earliest(k, s, versions, g) ensures g == f {
      var j :| 0 <= j < 7 && EarliestAt(k, s, versions, g, j);
      assert i == j;
    }
  }

  lemma CleanIff(k: Tools, s: Submission, versions: Versions)
    requires ReadManifest(k, s).Some? && s.trusted.Some?
    ensures Clean(k, s, versions) <==>
            && Complaint(k, s, versions, Signatures).None? && Complaint(k, s, versions, Freshness).None?
            && Complaint(k, s, versions, Content).None?
  {
    OpeningChecks(k, s, versions);
    if Complaint(k, s, versions, Signatures).None? && Complaint(k, s, versions, Freshness).None?
       && Complaint(k, s, versions, Content).None? {
      OneMore(k, s, versions, 3);
      OneMore(k, s, versions, 4);
      OneMore(k, s, versions, 5);
      NothingDecided(k, s, versions);
    }
  }

  /* ---------- authenticity, freshness, integrity ---------- */

  /** The bytes of manifest.json parse, and two provisioned keys, and nobody else, signed them. */
  ghost predicate Authentic(k: Tools, s: Submission) {
    && "manifest.json" in s.bundle && s.bundle["manifest.json"].Regular?
    && Parse(k.json, s.bundle["manifest.json"].bytes).Some?
    && s.trusted.Some? && SignedByTwo(k, s, s.bundle["manifest.json"].bytes)
  }

  /** Every line of manifest.sig is blank or a signature by a provisioned key, no two are by
      one key, and there are two of them at least. */
  ghost predicate SignedByTwo(k: Tools, s: Submission, raw: string)
    requires s.trusted.Some?
  {
    && "manifest.sig" in s.bundle && s.bundle["manifest.sig"].Regular?
    && Signer.TwoSigned(k.crypto, raw, s.trusted.value, SigFile.LinesOf(s.bundle["manifest.sig"].bytes))
  }

  /** The version is above the one in the version file, which is a readable number if it is there. */
  ghost predicate IsFresh(s: Submission, versions: Versions, m: Manifest) {
    && s.stateReadable
    && var name := Sanitise(m.bundleId);
       if name !in versions then m.version > 0
       else ParseUint64(TrimSpace(versions[name])).Some? && ParseUint64(TrimSpace(versions[name])).value < m.version
  }

  /** The manifest, and the text of the signature file; a missing one reads as empty. */
  predicate Carries(s: Submission, raw: string, text: string) {
    && "manifest.json" in s.bundle && s.bundle["manifest.json"] == Regular(raw)
    && if "manifest.sig" in s.bundle then s.bundle["manifest.sig"] == Regular(text) else text == ""
  }

  lemma SignatureComplaintIs(k: Tools, s: Submission, versions: Versions, raw: string, text: string)
    returns (r: Result<seq<string>, Signer.SigError>)
    requires Carries(s, raw, text) && s.trusted.Some?
    ensures r == Signer.VerifySignaturesOutcome(k.crypto, raw, SigFile.LinesOf(text), s.trusted.value, 2)
    ensures Complaint(k, s, versions, Signatures) == if r.Ok? then None else Some(SigReason(r.error))
  {
    r := SignatureAnswer(k, s);
  }

  lemma SignaturesSpelledOut(k: Tools, s: Submission, versions: Versions, raw: string)
    requires BytesAt(s.bundle, MANIFEST_JSON) == Some(raw) && s.trusted.Some?
    ensures Complaint(k, s, versions, Signatures).None? <==> SignedByTwo(k, s, raw)
  {
    if SignatureFile(s).Some? {
      var r := SignatureComplaintIs(k, s, versions, raw, SignatureFile(s).value);
      Signer.TwoDecide(k.crypto, raw, s.trusted.value, SigFile.LinesOf(SignatureFile(s).value));
      NoFileNoSignatures();
    }
  }

  lemma NoFileNoSignatures()
    ensures SigFile.LinesOf("") == []
  {
  }

  /** Refused for too few signatures: every line is blank or good, and no two are good. */
  lemma TooFewIff(k: Tools, s: Submission, versions: Versions, raw: string, text: string)
    requires Carries(s, raw, text) && s.trusted.Some?
    ensures var lines := SigFile.LinesOf(text);
            Complaint(k, s, versions, Signatures) == Some(Reason.InsufficientSignatures) <==>
              Quorum.AllSigned(lines, Signer.IsBlank, Signer.Keys(k.crypto, raw, s.trusted.value))
              && !Signer.TwoSigned(k.crypto, raw, s.trusted.value, lines)
  {
    var r := SignatureComplaintIs(k, s, versions, raw, text);
    var lines := SigFile.LinesOf(text);
    Signer.TwoDecide(k.crypto, raw, s.trusted.value, lines);
    Signer.SignaturesDecide(k.crypto, raw, s.trusted.value, lines, 2);
  }

  /** Otherwise the reason is that of the first line that cannot be accepted: it repeats a
      key, names an unknown one, is no good, or is no line. */
  lemma SignatureReasons(k: Tools, s: Submission, versions: Versions, raw: string, text: string, i: nat)
    requires Carries(s, raw, text) && s.trusted.Some?
    requires var lines := SigFile.LinesOf(text);
             i < |lines| && Signer.FirstBad(k.crypto, raw, s.trusted.value, lines, i)
    ensures Complaint(k, s, versions, Signatures) == Some(
              match Signer.Blame(k.crypto, raw, s.trusted.value, SigFile.LinesOf(text)[i])
              case DuplicateSigner => Reason.DuplicateSigner
              case UntrustedSigner => Reason.UntrustedSigner
              case BadSignature => Reason.BadSignature
              case _ => Unverifiable)
  {
    var r := SignatureComplaintIs(k, s, versions, raw, text);
    Signer.SignaturesDecide(k.crypto, raw, s.trusted.value, SigFile.LinesOf(text), 2);
  }

  /** No signature file, and no signature; one that is not a file is no good. */
  lemma WithoutSignatureFile(k: Tools, s: Submission, versions: Versions, raw: string)
    requires "manifest.json" in s.bundle && s.bundle["manifest.json"] == Regular(raw) && s.trusted.Some?
    ensures "manifest.sig" !in s.bundle ==>
              Complaint(k, s, versions, Signatures) == Some(Reason.InsufficientSignatures)
    ensures "manifest.sig" in s.bundle && !s.bundle["manifest.sig"].Regular? ==>
              Complaint(k, s, versions, Signatures) == Some(Reason.BadSignature)
  {
    if "manifest.sig" !in s.bundle {
      NoFileNoSignatures();
      TooFewIff(k, s, versions, raw, "");
    }
  }

  /** A clean submission was signed by two different people: two lines of its signature file
      are good signatures over the raw manifest, by different provisioned keys. */
  lemma TwoPeopleSigned(k: Tools, s: Submission, versions: Versions)
    requires Clean(k, s, versions)
    ensures "manifest.json" in s.bundle && s.bundle["manifest.json"].Regular? && s.trusted.Some?
    ensures "manifest.sig" in s.bundle && s.bundle["manifest.sig"].Regular?
    ensures Quorum.TwoSign(SigFile.LinesOf(s.bundle["manifest.sig"].bytes),
                           Signer.Keys(k.crypto, s.bundle["manifest.json"].bytes, s.trusted.value))
  {
    CleanIsSigned(k, s, versions);
    Quorum.NotBlankIsSigned(SigFile.LinesOf(s.bundle["manifest.sig"].bytes), Signer.IsBlank,
                            Signer.Keys(k.crypto, s.bundle["manifest.json"].bytes, s.trusted.value));
  }

  lemma CleanIsSigned(k: Tools, s: Submission, versions: Versions)
    requires Clean(k, s, versions)
    ensures "manifest.json" in s.bundle && s.bundle["manifest.json"].Regular? && s.trusted.Some?
    ensures SignedByTwo(k, s, s.bundle["manifest.json"].bytes)
  {
    assert Complaint(k, s, versions, ManifestPresent).None?;
    assert Complaint(k, s, versions, TrustedKeys).None?;
    assert Complaint(k, s, versions, Signatures).None?;
    SignaturesSpelledOut(k, s, versions, s.bundle["manifest.json"].bytes);
  }

  /** One good signature, and blank lines, are not enough. */
  lemma OneSignerIsInsufficient(k: Tools, s: Submission, versions: Versions, raw: string, text: string, n: nat,
                                id: string)
    requires s.trusted.Some? && s.bundle.Keys >= {"manifest.json", "manifest.sig"}
    requires s.bundle["manifest.json"] == Regular(raw) && s.bundle["manifest.sig"] == Regular(text)
    requires n < |SigFile.LinesOf(text)|
    requires Signer.SignedByKey(k.crypto, raw, s.trusted.value, SigFile.LinesOf(text)[n], id)
    requires forall i :: 0 <= i < |SigFile.LinesOf(text)| && i != n ==> SigFile.LinesOf(text)[i] == Signer.Fields([])
    ensures Complaint(k, s, versions, Signatures) == Some(Reason.InsufficientSignatures)
  {
    var lines, keys := SigFile.LinesOf(text), Signer.Keys(k.crypto, raw, s.trusted.value);
    TooFewIff(k, s, versions, raw, text);
    assert keys(lines[n], id);
  }

  /** The gate's order. A failed check on manifest, keys or signatures means the bundle is not
      authentic; one on the version, that it is authentic and not fresh; one on the content,
      that it is both and not what its manifest says; and accepted is what is all three. */
  lemma DecidedInOrder(k: Tools, s: Submission, versions: Versions, f: Failure)
    requires Earliest(k, s, versions, f)
    ensures f.check in {ManifestPresent, ManifestCanonical, TrustedKeys, Signatures} <==> !Authentic(k, s)
    ensures Authentic(k, s) ==>
              var m := Parse(k.json, s.bundle["manifest.json"].bytes).value;
              && (f.check == Freshness <==> !IsFresh(s, versions, m))
              && (f.check == Content <==> IsFresh(s, versions, m) && !Conforms(k.h, s.bundle, m.files, s.allow))
  {
    var i :| 0 <= i < 7 && EarliestAt(k, s, versions, f, i);
    AuthenticIff(k, s, versions);
    PlaceOf(k, s, versions, f, i);
    if Authentic(k, s) {
      var m := ReadManifest(k, s).value;
      FreshSpelledOut(k, s, versions, m);
      ContentComplaint(k, s, m, versions);
      VerdictNoneIffConforms(k.h, s.bundle, m.files, s.allow);
    }
  }

  /** What the place of the earliest complaint says of the checks before it. */
  lemma PlaceOf(k: Tools, s: Submission, versions: Versions, f: Failure, i: nat)
    requires i < 7 && EarliestAt(k, s, versions, f, i)
    ensures i != 6 && Complaint(k, s, versions, f.check).Some?
    ensures f.check in {ManifestPresent, ManifestCanonical, TrustedKeys, Signatures} <==> i < 4
    ensures i >= 4 ==>
              && Complaint(k, s, versions, ManifestPresent).None? && Complaint(k, s, versions, ManifestCanonical).None?
              && Complaint(k, s, versions, TrustedKeys).None? && Complaint(k, s, versions, Signatures).None?
    ensures (f.check == Freshness <==> i == 4) && (f.check == Content <==> i == 5)
    ensures i == 5 ==> Complaint(k, s, versions, Freshness).None?
  {
    var order := ChecksInOrder();
    assert order[i] == f.check && forall j :: 0 <= j < i ==> Complaint(k, s, versions, order[j]).None?;
    if i >= 4 {
      assert Complaint(k, s, versions, order[0]).None? && Complaint(k, s, versions, order[1]).None?;
      assert Complaint(k, s, versions, order[2]).None? && Complaint(k, s, versions, order[3]).None?;
      assert i > 4 ==> Complaint(k, s, versions, order[4]).None?;
    }
  }

  /** The reason that goes with each check but the signatures. */
  lemma ReasonOfCheck(k: Tools, s: Submission, versions: Versions, f: Failure)
    requires Earliest(k, s, versions, f)
    ensures f.check in {ManifestPresent, ManifestCanonical} ==> f.reason == ManifestParse
    ensures f.check == TrustedKeys ==> f.reason == Unverifiable
    ensures f.check == Freshness ==> f.reason == if s.stateReadable then VersionRollback else Unverifiable
    ensures f.check == Content && Authentic(k, s) ==>
              var m := Parse(k.json, s.bundle["manifest.json"].bytes).value;
              match Verdict(k.h, s.bundle, m.files, s.allow)
              case None => false
              case Some(HashMismatch) => f.reason == Reason.HashMismatch
              case Some(UnmanifestedFile) => f.reason == Reason.UnmanifestedFile
              case Some(MissingFile) => f.reason == Reason.MissingFile
              case Some(AllowlistViolation) => f.reason == Reason.AllowlistViolation
              case Some(UnsafePath) => f.reason == Reason.UnsafePath
  {
    var i :| 0 <= i < 7 && EarliestAt(k, s, versions, f, i);
    if f.check == Content && Authentic(k, s) {
      ContentComplaint(k, s, ReadManifest(k, s).value, versions);
    }
  }

  lemma AuthenticIff(k: Tools, s: Submission, versions: Versions)
    ensures Authentic(k, s) <==>
            && Complaint(k, s, versions, ManifestPresent).None? && Complaint(k, s, versions, ManifestCanonical).None?
            && Complaint(k, s, versions, TrustedKeys).None? && Complaint(k, s, versions, Signatures).None?
    ensures Authentic(k, s) ==> ReadManifest(k, s) == Parse(k.json, s.bundle["manifest.json"].bytes)
  {
    if BytesAt(s.bundle, MANIFEST_JSON).Some? && s.trusted.Some? {
      SignaturesSpelledOut(k, s, versions, BytesAt(s.bundle, MANIFEST_JSON).value);
    }
  }

  lemma FreshSpelledOut(k: Tools, s: Submission, versions: Versions, m: Manifest)
    requires ReadManifest(k, s) == Some(m)
    ensures Complaint(k, s, versions, Freshness).None? <==> IsFresh(s, versions, m)
    ensures Complaint(k, s, versions, Freshness).Some? ==>
              Complaint(k, s, versions, Freshness).value == if s.stateReadable then VersionRollback else Unverifiable
  {
  }

  lemma CleanIsAllThree(k: Tools, s: Submission, versions: Versions)
    ensures Clean(k, s, versions) <==>
            && Authentic(k, s)
            && var m := Parse(k.json, s.bundle["manifest.json"].bytes).value;
               IsFresh(s, versions, m) && Conforms(k.h, s.bundle, m.files, s.allow)
  {
    AuthenticIff(k, s, versions);
    if Authentic(k, s) {
      CleanIff(k, s, versions);
      var m := ReadManifest(k, s).value;
      FreshSpelledOut(k, s, versions, m);
      ContentComplaint(k, s, m, versions);
      VerdictNoneIffConforms(k.h, s.bundle, m.files, s.allow);
    }
  }

  /* ---------- one run ---------- */

  /** A REJECT is exactly a submission some check complains of, unless the log cannot be
      opened or appended to; it names the earliest complaint, publishes no root and touches
      no version file. A log directory that cannot be made stops neither a REJECT nor an
      ACCEPT, which then go unlogged. */
  lemma RejectConsumesNothing(k: Tools, s: Submission, versions: Versions, faults: Faults)
    ensures var r := Outcome(k, s, versions, faults);
            && (r.answer.Reject? <==> !Clean(k, s, versions) && !faults.LogFails?)
            && (!Clean(k, s, versions) ==> r.versions == versions && r.root.None?)
            && (r.answer.Reject? ==> exists f :: Earliest(k, s, versions, f) && f.reason == r.answer.reason)
  {
    if !Clean(k, s, versions) {
      EarliestExists(k, s, versions);
    }
  }

  predicate Stores(w: Surroundings) { !w.storing.MkdirFails? && !w.storing.OpenFails? && !w.storing.TornWrite? }

  /** The log takes the decision, or its directory cannot be made. */
  predicate Logs(form: AuditLog.Form, log: AuditLog.Content, w: Surroundings) {
    !w.logDir || (w.logOpens && AuditLog.Verifies(form, AuditLog.Scanned(log)) && w.append.Written?)
  }

  /** What comes of a clean submission. ACCEPT is one whose version could be stored and whose
      acceptance could be logged, or no log directory made; the root is published as soon as the
      version is stored. */
  lemma CleanRunIs(k: Tools, s: Submission, versions: Versions, form: AuditLog.Form, log: AuditLog.Content,
                   w: Surroundings)
    requires Clean(k, s, versions)
    ensures var r, m := Outcome(k, s, versions, FaultMet(true, form, log, w)), ReadManifest(k, s).value;
            && r.answer == (if Stores(w) && Logs(form, log, w) then Accept else Error)
            && r.root == (if Stores(w) then Some(ContentRoot(k.h, m.files)) else None)
            && r.versions == VersionsAfter(versions, m, w.storing)
  {
    AcceptedAs(k, s, versions, ReadManifest(k, s).value);
  }

  /** And of any other: REJECT is one whose rejection could be logged, and nothing is changed. */
  lemma OtherRunIs(k: Tools, s: Submission, versions: Versions, form: AuditLog.Form, log: AuditLog.Content,
                   w: Surroundings, f: Failure)
    requires Earliest(k, s, versions, f)
    ensures Outcome(k, s, versions, FaultMet(false, form, log, w)) ==
            RunResult(if Logs(form, log, w) then Reject(f.reason) else Error, None, versions)
  {
    EarliestIsUnique(k, s, versions, f);
    RejectedAs(k, s, versions, f);
  }

  /** The version files after an acceptance went about storing its version. */
  function VersionsAfter(versions: Versions, m: Manifest, storing: Faults): Versions {
    var text := Digits(m.version) + "\n";
    match storing
    case MkdirFails => versions
    case OpenFails => versions
    case TornWrite(written) => versions[Sanitise(m.bundleId) := if written < |text| then text[..written] else text]
    case _ => versions[Sanitise(m.bundleId) := text]
  }

  /** The entry says what the run decided. */
  predicate Tells(rec: Recording, m: Option<Manifest>, r: RunResult, e: AuditLog.Entry) {
    match r.answer
    case Accept =>
      && m.Some? && r.root.Some? && e.ts == rec.ts
      && e.event == "INGRESS_ACCEPT" && e.detail == rec.accepted(m.value, r.root.value)
    case Reject(reason) => e.ts == rec.ts && e.event == "INGRESS_REJECT" && e.detail == rec.rejected(reason)
    case Error => false
  }

  /** The log was clean, and `e`, which tells what was decided, was appended to it. An entry
      that can be stored is then the last of a clean log, if the log ended with a newline; if
      it ended in a line that was not written to its end, the log is broken from now on. */
  ghost predicate RecordedLast(rec: Recording, m: Option<Manifest>, r: RunResult, before: AuditLog.Content,
                               after: AuditLog.Content, e: AuditLog.Entry) {
    && Tells(rec, m, r, e) && LogVerifies(rec.form, before)
    && after == AuditLog.Content(before.lines + [before.tail + rec.form.enc(e)], "")
    && (AuditLog.Storable(rec.form, e) && before.tail == "" ==>
          LogVerifies(rec.form, after) &&
          AuditLog.Entries(rec.form, after.lines).value == AuditLog.Entries(rec.form, before.lines).value + [e])
    && (AuditLog.Storable(rec.form, e) && AuditLog.Whole(rec.form) && AuditLog.Unfinished(rec.form, before.tail) ==>
          (LogVerifies(rec.form, after) <==> before.tail == ""))
  }

  lemma AppendedIsLast(rec: Recording, m: Option<Manifest>, r: RunResult, before: AuditLog.Content,
                       w: Surroundings, event: string, detail: string)
    requires LogVerifies(rec.form, before) && w.logDir && w.logOpens && w.append.Written?
    requires Tells(rec, m, r, EntryAfter(rec, before, event, detail))
    ensures RecordedLast(rec, m, r, before, LogAfter(rec, before, w, event, detail),
                         EntryAfter(rec, before, event, detail))
  {
    var e := EntryAfter(rec, before, event, detail);
    if AuditLog.Storable(rec.form, e) {
      if before.tail == "" {
        CleanLogGrows(rec, before.lines, e);
        assert before.tail + rec.form.enc(e) == rec.form.enc(e);
      } else if AuditLog.Whole(rec.form) && AuditLog.Unfinished(rec.form, before.tail) {
        AuditLog.UnfinishedGrows(rec.form, before.tail, e, rec.form.enc(e));
        AuditLog.VerifiesGrows(rec.form, before.lines, before.tail + rec.form.enc(e));
      }
    }
  }

  lemma CleanLogGrows(rec: Recording, lines: seq<string>, e: AuditLog.Entry)
    requires AuditLog.Verifies(rec.form, lines) && AuditLog.Storable(rec.form, e)
    requires e == AuditLog.NextEntry(rec.form, AuditLog.HandleAt(rec.form, lines), e.ts, e.event, e.detail)
    ensures AuditLog.Verifies(rec.form, lines + [rec.form.enc(e)])
    ensures AuditLog.Entries(rec.form, lines + [rec.form.enc(e)]).value == AuditLog.Entries(rec.form, lines).value + [e]
  {
    AuditLog.OpenRemembers(rec.form, lines);
    AuditLog.FreshHandle(rec.form, lines);
    AuditLog.AppendThrough(rec.form, lines, AuditLog.HandleAt(rec.form, lines), e);
  }

  /** Unless the log directory could not be made, an ACCEPT or a REJECT means that the log
      verified before the run and that this decision was appended to it as its next entry. A
      broken log makes every run that gets to it end in ERROR, and stays as it was. */
  lemma DecisionsAreLogged(k: Tools, s: Submission, versions: Versions, rec: Recording, before: AuditLog.Content,
                           w: Surroundings, after: AuditLog.Content)
    requires Logged(k, s, versions, rec, before, w, after)
    ensures var r := Outcome(k, s, versions, FaultMet(Clean(k, s, versions), rec.form, before, w));
            && (w.logDir && r.answer != Error ==>
                  exists e :: RecordedLast(rec, ReadManifest(k, s), r, before, after, e))
            && (w.logDir && !LogVerifies(rec.form, before) && !(Clean(k, s, versions) && StoringFails(w)) ==>
                  r.answer == Error && after == before)
  {
    var r := Outcome(k, s, versions, FaultMet(Clean(k, s, versions), rec.form, before, w));
    if w.logDir && r.answer != Error {
      if Clean(k, s, versions) {
        AcceptIsLogged(k, s, versions, rec, before, w, after);
      } else {
        RejectIsLogged(k, s, versions, rec, before, w, after);
      }
    }
  }

  lemma AcceptIsLogged(k: Tools, s: Submission, versions: Versions, rec: Recording, before: AuditLog.Content,
                       w: Surroundings, after: AuditLog.Content)
    requires Logged(k, s, versions, rec, before, w, after) && Clean(k, s, versions) && w.logDir
    requires Outcome(k, s, versions, FaultMet(true, rec.form, before, w)).answer == Accept
    ensures var r := Outcome(k, s, versions, FaultMet(true, rec.form, before, w));
            exists e :: RecordedLast(rec, ReadManifest(k, s), r, before, after, e)
  {
    var m := ReadManifest(k, s).value;
    var r := Outcome(k, s, versions, FaultMet(true, rec.form, before, w));
    AcceptedAs(k, s, versions, m);
    AppendedIsLast(rec, Some(m), r, before, w, ACCEPTED, rec.accepted(m, ContentRoot(k.h, m.files)));
  }

  lemma RejectIsLogged(k: Tools, s: Submission, versions: Versions, rec: Recording, before: AuditLog.Content,
                       w: Surroundings, after: AuditLog.Content)
    requires Logged(k, s, versions, rec, before, w, after) && !Clean(k, s, versions) && w.logDir
    requires Outcome(k, s, versions, FaultMet(false, rec.form, before, w)).answer != Error
    ensures var r := Outcome(k, s, versions, FaultMet(false, rec.form, before, w));
            exists e :: RecordedLast(rec, ReadManifest(k, s), r, before, after, e)
  {
    var r := Outcome(k, s, versions, FaultMet(false, rec.form, before, w));
    var f :| Earliest(k, s, versions, f) && after == LogAfter(rec, before, w, REJECTED, rec.rejected(f.reason));
    RejectedAs(k, s, versions, f);
    AppendedIsLast(rec, ReadManifest(k, s), r, before, w, REJECTED, rec.rejected(f.reason));
  }

  /** A published root belongs to an accepted manifest, whose version is then stored,
      whether or not the log could be written. */
  lemma PublishedIsStored(k: Tools, s: Submission, versions: Versions, faults: Faults)
    requires Outcome(k, s, versions, faults).root.Some?
    ensures Clean(k, s, versions)
    ensures var m := ReadManifest(k, s).value;
            && Outcome(k, s, versions, faults).root == Some(ContentRoot(k.h, m.files))
            && Stored(Outcome(k, s, versions, faults).versions, m.bundleId) == Some(m.version)
  {
    assert Complaint(k, s, versions, ManifestCanonical).None? && Complaint(k, s, versions, ManifestPresent).None?;
    WrittenVersionIsRead(ReadManifest(k, s).value.version);
  }

  /** A clean submission is a store that is exactly what its manifest says. */
  lemma CleanConforms(k: Tools, s: Submission, versions: Versions)
    requires Clean(k, s, versions)
    ensures Conforms(k.h, s.bundle, ReadManifest(k, s).value.files, s.allow)
  {
    var m := ReadManifest(k, s).value;
    assert Complaint(k, s, versions, Content).None?;
    ContentComplaint(k, s, m, versions);
    VerdictNoneIffConforms(k.h, s.bundle, m.files, s.allow);
  }

  lemma CleanIsFresh(k: Tools, s: Submission, versions: Versions)
    requires Clean(k, s, versions)
    ensures ReadManifest(k, s).Some? && Stored(versions, ReadManifest(k, s).value.bundleId).Some?
    ensures Stored(versions, ReadManifest(k, s).value.bundleId).value < ReadManifest(k, s).value.version
  {
    assert Complaint(k, s, versions, ManifestCanonical).None? && Complaint(k, s, versions, ManifestPresent).None?;
    assert Complaint(k, s, versions, Freshness).None?;
  }

  /* ---------- sequences of runs ---------- */

  datatype Attempt = Attempt(submission: Submission, faults: Faults)

  type Step = (Attempt, Versions) -> RunResult

  ghost function GateStep(k: Tools): Step {
    (a: Attempt, versions: Versions) => Outcome(k, a.submission, versions, a.faults)
  }

  /** One gate at a time, each run finding the version files the last one left. */
  function Results(step: Step, versions: Versions, runs: seq<Attempt>): (rs: seq<RunResult>)
    ensures |rs| == |runs|
    decreases runs
  {
    if runs == [] then []
    else
      var first := step(runs[0], versions);
      [first] + Results(step, first.versions, runs[1..])
  }

  /** The stored version as a floor: an unreadable one admits nothing, so it is the highest. */
  predicate AtLeast(a: Option<nat>, b: Option<nat>) { a.None? || (b.Some? && a.value >= b.value) }

  /** The version file is not left with only some of its digits. */
  predicate NotTornApart(v: Version, faults: Faults) {
    faults.TornWrite? ==> faults.written == 0 || faults.written >= |Digits(v)|
  }

  lemma PrefixReads(v: Version, n: nat)
    requires n == 0 || n >= |Digits(v)|
    ensures AtLeast(ParseUint64(TrimSpace(Prefix(VersionText(v), n))), Some(v))
  {
    if n == 0 {
      assert Prefix(VersionText(v), n) == "";
    } else if n == |Digits(v)| {
      assert Prefix(VersionText(v), n) == Digits(v);
      assert TrimSpace(Digits(v)) == Digits(v);
      ParseDigits(v);
    } else {
      WrittenVersionIsRead(v);
    }
  }

  /** Some of the digits of a number, from the left, are those of a number at most a tenth. */
  lemma {:induction false} PrefixOfDigits(v: nat, n: nat) returns (u: nat)
    requires 0 < n < |Digits(v)|
    ensures Digits(v)[..n] == Digits(u) && u <= v / 10 && v >= 10
  {
    assert Digits(v)[..|Digits(v)| - 1] == Digits(v / 10);
    if n == |Digits(v)| - 1 {
      u := v / 10;
    } else {
      u := PrefixOfDigits(v / 10, n);
      assert Digits(v)[..n] == Digits(v / 10)[..n];
    }
  }

  /** Which torn writes are safe whatever was stored before: those that leave no digit or
      all of them. With 11 stored, writing 12 and leaving "1" reopens versions 2 to 11. */
  lemma TornWriteIsSafeIff(v: Version, n: nat)
    ensures (forall last: nat :: last < v ==> AtLeast(ParseUint64(TrimSpace(Prefix(VersionText(v), n))), Some(last)))
            <==> NotTornApart(v, TornWrite(n))
  {
    if n == 0 || n >= |Digits(v)| {
      PrefixReads(v, n);
    } else {
      var u := PrefixOfDigits(v, n);
      assert Prefix(VersionText(v), n) == Digits(v)[..n];
      assert TrimSpace(Digits(u)) == Digits(u);
      ParseDigits(u);
      var last: nat := v - 1;
      assert !AtLeast(Some(u), Some(last));
    }
  }

  /** What a single run can do to the version files, given the manifest it read. */
  ghost predicate Effect(m: Option<Manifest>, before: Versions, r: RunResult) {
    || (r.versions == before && r.root.None?)
    || (&& m.Some? && Stored(before, m.value.bundleId).Some? && Stored(before, m.value.bundleId).value < m.value.version
        && (r.root.Some? ==> Stored(r.versions, m.value.bundleId) == Some(m.value.version))
        && (forall id :: AtLeast(Stored(r.versions, id), Stored(before, id))))
  }

  lemma RaisedFloors(versions: Versions, bundleId: string, text: string, v: nat)
    requires Stored(versions, bundleId).Some? && Stored(versions, bundleId).value < v
    requires AtLeast(ParseUint64(TrimSpace(text)), Some(v))
    ensures forall id :: AtLeast(Stored(versions[Sanitise(bundleId) := text], id), Stored(versions, id))
  {
    forall id ensures AtLeast(Stored(versions[Sanitise(bundleId) := text], id), Stored(versions, id)) {
      if Sanitise(id) == Sanitise(bundleId) {
        assert Stored(versions, id) == Stored(versions, bundleId);
      }
    }
  }

  lemma AcceptEffect(versions: Versions, m: Manifest, root: string, faults: Faults)
    requires NotTornApart(m.version, faults)
    requires Stored(versions, m.bundleId).Some? && Stored(versions, m.bundleId).value < m.version
    ensures Effect(Some(m), versions, AfterAccept(versions, m, root, faults))
  {
    WrittenVersionIsRead(m.version);
    RaisedFloors(versions, m.bundleId, VersionText(m.version), m.version);
    if faults.TornWrite? {
      PrefixReads(m.version, faults.written);
      RaisedFloors(versions, m.bundleId, Prefix(VersionText(m.version), faults.written), m.version);
    }
  }

  /** No run of this attempt leaves only some digits of the version it accepts. */
  ghost predicate Whole(k: Tools, a: Attempt) {
    ReadManifest(k, a.submission).Some? ==> NotTornApart(ReadManifest(k, a.submission).value.version, a.faults)
  }

  ghost function Read(k: Tools): Attempt -> Option<Manifest> { (a: Attempt) => ReadManifest(k, a.submission) }

  /** Every run of every sequence has such an effect. */
  ghost predicate Orderly(step: Step, read: Attempt -> Option<Manifest>, runs: seq<Attempt>) {
    forall a, versions :: a in runs ==> Effect(read(a), versions, step(a, versions))
  }

  lemma GateIsOrderly(k: Tools, runs: seq<Attempt>)
    requires forall a :: a in runs ==> Whole(k, a)
    ensures Orderly(GateStep(k), Read(k), runs)
  {
    forall a, versions | a in runs ensures Effect(Read(k)(a), versions, GateStep(k)(a, versions)) {
      GateEffect(k, a, versions);
    }
  }

  lemma GateEffect(k: Tools, a: Attempt, versions: Versions)
    requires Whole(k, a)
    ensures Effect(ReadManifest(k, a.submission), versions, Outcome(k, a.submission, versions, a.faults))
  {
    if Clean(k, a.submission, versions) {
      CleanIsFresh(k, a.submission, versions);
      var m := ReadManifest(k, a.submission).value;
      AcceptEffect(versions, m, ContentRoot(k.h, m.files), a.faults);
    } else {
      RejectConsumesNothing(k, a.submission, versions, a.faults);
    }
  }

  lemma {:induction false} FloorsHold(step: Step, read: Attempt -> Option<Manifest>, versions: Versions,
      runs: seq<Attempt>, n: nat, id: string)
    requires n < |runs| && Orderly(step, read, runs)
    ensures AtLeast(Stored(Results(step, versions, runs)[n].versions, id), Stored(versions, id))
    decreases runs
  {
    assert Effect(read(runs[0]), versions, step(runs[0], versions));
    if n > 0 {
      FloorsHold(step, read, step(runs[0], versions).versions, runs[1..], n - 1, id);
    }
  }

  /** Over every sequence of runs no stored version falls. */
  lemma StoredVersionsNeverFall(k: Tools, versions: Versions, runs: seq<Attempt>, n: nat, id: string)
    requires n < |runs| && forall a :: a in runs ==> Whole(k, a)
    ensures AtLeast(Stored(Results(GateStep(k), versions, runs)[n].versions, id), Stored(versions, id))
  {
    GateIsOrderly(k, runs);
    FloorsHold(GateStep(k), Read(k), versions, runs, n, id);
  }

  /** The run published the root of a bundle whose version lives in the version file of `id`. */
  predicate PublishedFor(read: Attempt -> Option<Manifest>, a: Attempt, r: RunResult, id: string) {
    r.root.Some? && read(a).Some? && Sanitise(read(a).value.bundleId) == Sanitise(id)
  }

  lemma {:induction false} PublishedIsAbove(step: Step, read: Attempt -> Option<Manifest>, versions: Versions,
      runs: seq<Attempt>, n: nat, id: string)
    requires n < |runs| && Orderly(step, read, runs)
    requires PublishedFor(read, runs[n], Results(step, versions, runs)[n], id)
    ensures Stored(versions, id).Some? && Stored(versions, id).value < read(runs[n]).value.version
    decreases runs
  {
    assert Effect(read(runs[0]), versions, step(runs[0], versions));
    if n > 0 {
      assert runs[1..][n - 1] == runs[n];
      PublishedIsAbove(step, read, step(runs[0], versions).versions, runs[1..], n - 1, id);
    }
  }

  lemma {:induction false} PublishedIncrease(step: Step, read: Attempt -> Option<Manifest>, versions: Versions,
      runs: seq<Attempt>, i: nat, j: nat, id: string)
    requires i < j < |runs| && Orderly(step, read, runs)
    requires PublishedFor(read, runs[i], Results(step, versions, runs)[i], id)
    requires PublishedFor(read, runs[j], Results(step, versions, runs)[j], id)
    ensures read(runs[i]).value.version < read(runs[j]).value.version
    decreases runs
  {
    assert runs[1..][j - 1] == runs[j];
    var next := step(runs[0], versions).versions;
    if i == 0 {
      assert Effect(read(runs[0]), versions, step(runs[0], versions));
      PublishedIsAbove(step, read, next, runs[1..], j - 1, id);
    } else {
      assert runs[1..][i - 1] == runs[i];
      PublishedIncrease(step, read, next, runs[1..], i - 1, j - 1, id);
    }
  }

  /** Over every sequence of runs, the versions published under one version file strictly
      increase. An ACCEPT always publishes; so does the ERROR of a log that cannot be written. */
  lemma PublishedVersionsIncrease(k: Tools, versions: Versions, runs: seq<Attempt>, i: nat, j: nat, id: string)
    requires i < j < |runs| && forall a :: a in runs ==> Whole(k, a)
    requires PublishedFor(Read(k), runs[i], Results(GateStep(k), versions, runs)[i], id)
    requires PublishedFor(Read(k), runs[j], Results(GateStep(k), versions, runs)[j], id)
    ensures Read(k)(runs[i]).value.version < Read(k)(runs[j]).value.version
  {
    GateIsOrderly(k, runs);
    PublishedIncrease(GateStep(k), Read(k), versions, runs, i, j, id);
  }

  /** An ERROR can follow an advanced version: the log is written last. The same bundle is
      then refused, although no acceptance was recorded. */
  lemma UnloggedAcceptanceIsSpent(k: Tools, s: Submission, versions: Versions)
    requires Clean(k, s, versions)
    ensures var first := Outcome(k, s, versions, LogFails);
            first.answer == Error && first.root.Some? && !Clean(k, s, first.versions)
  {
    var first := Outcome(k, s, versions, LogFails);
    CleanIsFresh(k, s, versions);
    PublishedIsStored(k, s, versions, LogFails);
    if Clean(k, s, first.versions) {
      CleanIsFresh(k, s, first.versions);
    }
  }
}
