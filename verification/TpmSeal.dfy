/** pkg/tpmseal as a protocol: any number of processes provision, unseal and reset
    against one PCR, one tool call at a time, in any interleaving.

    A run is a list of actions. Each action lets one process take the lock, make its
    next tool call, or stop there (a tool fails, or the process dies and the kernel
    drops its flock; TpmLate is about tools that go on without their process). The
    extend and policy functions of the TPM are parameters, and so is the lock file a
    process resolves: lockPath prefers /run and falls back to the temporary directory,
    so two processes need not agree on it. */
module TpmSeal {
  import opened Text

  /* ---------- measurements ---------- */

  datatype Tpm = Tpm(extend: Hash, policy: Hash, lockFile: nat -> string)

  /** The value of a PCR that has just been reset. */
  const ZEROS: string := Repeat('\0', 32)

  function HexValue(c: char): (v: Option<nat>)
    ensures v.Some? ==> v.value < 16
  {
    if '0' <= c <= '9' then Some(c as nat - '0' as nat)
    else if 'a' <= c <= 'f' then Some(c as nat - 'a' as nat + 10)
    else if 'A' <= c <= 'F' then Some(c as nat - 'A' as nat + 10)
    else None
  }

  function HexByte(hi: char, lo: char): Option<char> {
    match (HexValue(hi), HexValue(lo))
    case (Some(h), Some(l)) => Some((16 * h + l) as char)
    case _ => None
  }

  /** hex.DecodeString */
  function DecodeHex(s: string): Option<string> {
    if s == "" then Some("")
    else if |s| == 1 then None
    else
      match (HexByte(s[0], s[1]), DecodeHex(s[2..]))
      case (Some(c), Some(rest)) => Some([c] + rest)
      case _ => None
  }

  /** hex.EncodeToString, for one half of a byte. */
  function HexDigit(v: nat): char
    requires v < 16
  {
    "0123456789abcdef"[v]
  }

  predicate Octets(s: string) { forall i :: 0 <= i < |s| ==> s[i] as nat < 256 }

  function EncodeHex(s: string): (hex: string)
    requires Octets(s)
    ensures |hex| == 2 * |s|
  {
    if s == "" then "" else [HexDigit(s[0] as nat / 16), HexDigit(s[0] as nat % 16)] + EncodeHex(s[1..])
  }

  function Upper(c: char): char { if 'a' <= c <= 'f' then (c as nat - 32) as char else c }

  lemma HexOfDigit(v: nat)
    requires v < 16
    ensures HexValue(HexDigit(v)) == Some(v) && HexValue(Upper(HexDigit(v))) == Some(v)
  {
    var digits := "0123456789abcdef";
    assert v in {0, 1, 2, 3, 4, 5, 6, 7, 8, 9, 10, 11, 12, 13, 14, 15};
  }

  /** Decoding undoes encoding, and reads capital digits alike. */
  lemma {:induction false} DecodeOfEncode(s: string, capitals: string)
    requires Octets(s) && |capitals| == 2 * |s|
    requires forall i :: 0 <= i < |capitals| ==> capitals[i] in {EncodeHex(s)[i], Upper(EncodeHex(s)[i])}
    ensures DecodeHex(capitals) == Some(s)
  {
    if s != "" {
      var v := s[0] as nat;
      HexOfDigit(v / 16);
      HexOfDigit(v % 16);
      assert capitals[0] in {EncodeHex(s)[0], Upper(EncodeHex(s)[0])};
      assert capitals[1] in {EncodeHex(s)[1], Upper(EncodeHex(s)[1])};
      assert EncodeHex(s)[0] == HexDigit(v / 16) && EncodeHex(s)[1] == HexDigit(v % 16);
      assert HexByte(capitals[0], capitals[1]) == Some(s[0]);
      assert EncodeHex(s)[2..] == EncodeHex(s[1..]);
      forall i | 0 <= i < |capitals[2..]|
        ensures capitals[2..][i] in {EncodeHex(s[1..])[i], Upper(EncodeHex(s[1..])[i])}
      {
        assert capitals[2..][i] == capitals[i + 2] && EncodeHex(s)[i + 2] == EncodeHex(s[1..])[i];
      }
      DecodeOfEncode(s[1..], capitals[2..]);
      assert s == [s[0]] + s[1..];
    }
  }

  predicate ValidRoot(root: string) { |root| == 64 && DecodeHex(root).Some? }

  /** ExpectedPCR23 */
  function Expected(tpm: Tpm, root: string): string
    requires ValidRoot(root)
  {
    tpm.extend(ZEROS + DecodeHex(root).value)
  }

  /** The policy digest a session over PCR 23 has after measuring `root` alone. */
  function PcrPolicy(tpm: Tpm, root: string): string
    requires ValidRoot(root)
  {
    tpm.policy(Expected(tpm, root))
  }

  predicate LowerHexDigit(c: char) { '0' <= c <= '9' || 'a' <= c <= 'f' }

  predicate LowerHex(s: string) {
    forall i :: 0 <= i < |s| ==> LowerHexDigit(s[i])
  }

  lemma HexByteInjective(a: char, b: char, c: char, d: char)
    requires LowerHexDigit(a) && LowerHexDigit(b) && LowerHexDigit(c) && LowerHexDigit(d)
    requires HexByte(a, b) == HexByte(c, d)
    ensures a == c && b == d
  {
    var h1, l1, h2, l2 := HexValue(a).value, HexValue(b).value, HexValue(c).value, HexValue(d).value;
    assert (16 * h1 + l1) as char as nat == 16 * h1 + l1 && (16 * h2 + l2) as char as nat == 16 * h2 + l2;
    assert h1 == h2 && l1 == l2;
  }

  lemma SameFirst(x: char, xs: string, y: char, ys: string)
    requires [x] + xs == [y] + ys
    ensures x == y && xs == ys
  {
    assert ([x] + xs)[0] == x && ([y] + ys)[0] == y;
    assert ([x] + xs)[1..] == xs && ([y] + ys)[1..] == ys;
  }

  /** On lower-case digits, decoding forgets nothing. */
  lemma {:induction false} DecodeHexInjective(a: string, b: string)
    requires LowerHex(a) && LowerHex(b)
    requires DecodeHex(a).Some? && DecodeHex(a) == DecodeHex(b)
    ensures a == b
  {
    if a != "" && b != "" {
      SameFirst(HexByte(a[0], a[1]).value, DecodeHex(a[2..]).value, HexByte(b[0], b[1]).value, DecodeHex(b[2..]).value);
      HexByteInjective(a[0], a[1], b[0], b[1]);
      DecodeHexInjective(a[2..], b[2..]);
      assert a == [a[0], a[1]] + a[2..] && b == [b[0], b[1]] + b[2..];
    }
  }

  /* ---------- the machine ---------- */

  datatype Blob = Absent | Sealed(policy: string, secret: string) | Torn

  /** The files of one seal directory. */
  datatype SealDir = SealDir(policyDigest: string, blob: Blob, note: string)

  datatype Op =
    | Provision(dir: string, root: string, secret: string)
    | Unseal(dir: string, root: string)
    | Reset

  /** The last tool call a lock holder completed. */
  datatype Point = Locked | Cleared | Extended | Measured | PolicyWritten | Created | Loaded | InSession

  datatype Proc = Proc(op: Op, at: Point, blob: Blob, session: string)

  datatype Event =
    | SealedInto(dir: string, root: string, secret: string)
    | Released(dir: string, root: string, bytes: string)
    | Refused(dir: string, root: string)

  datatype State = State(
    pcr: string,
    locks: map<string, nat>,
    procs: map<nat, Proc>,
    dirs: map<string, SealDir>,
    history: seq<Event>)

  /** A step that stops may stop inside tpm2_create, between its two output files. */
  datatype Action = Start(pid: nat, op: Op) | Advance(pid: nat) | Stop(pid: nat, torn: bool)

  function Init(pcr: string): State { State(pcr, map[], map[], map[], []) }

  function DirOf(s: State, dir: string): SealDir {
    if dir in s.dirs then s.dirs[dir] else SealDir("", Absent, "")
  }

  /** Returning from withPCRLock: the lock is dropped. */
  function Exit(tpm: Tpm, s: State, p: nat): State {
    s.(locks := s.locks - {tpm.lockFile(p)}, procs := s.procs - {p})
  }

  function At(s: State, p: nat, point: Point): State
    requires p in s.procs
  {
    s.(procs := s.procs[p := s.procs[p].(at := point)])
  }

  function Begin(tpm: Tpm, s: State, p: nat, op: Op): State {
    if p in s.procs || tpm.lockFile(p) in s.locks then s
    else s.(locks := s.locks[tpm.lockFile(p) := p], procs := s.procs[p := Proc(op, Locked, Absent, "")])
  }

  /** The checks made before the PCR is touched. */
  predicate Admissible(op: Op) {
    match op
    case Provision(_, root, secret) => secret != "" && ValidRoot(root)
    case Unseal(_, root) => ValidRoot(root)
    case Reset => true
  }

  function StepLocked(tpm: Tpm, s: State, p: nat): State
    requires p in s.procs
  {
    var op := s.procs[p].op;
    if !Admissible(op) then Exit(tpm, s, p)
    else if op.Reset? then Exit(tpm, s.(pcr := ZEROS), p)
    else At(s.(pcr := ZEROS), p, Cleared)
  }

  function StepMeasured(tpm: Tpm, s: State, p: nat): State
    requires p in s.procs && !s.procs[p].op.Reset?
  {
    var proc := s.procs[p];
    var d := DirOf(s, proc.op.dir);
    if proc.op.Provision? then
      At(s.(dirs := s.dirs[proc.op.dir := d.(policyDigest := tpm.policy(s.pcr))]), p, PolicyWritten)
    else if d.blob.Sealed? then
      s.(procs := s.procs[p := proc.(at := Loaded, blob := d.blob)])
    else Exit(tpm, s, p)
  }

  function StepCreate(s: State, p: nat): State
    requires p in s.procs && s.procs[p].op.Provision?
  {
    var op := s.procs[p].op;
    var d := DirOf(s, op.dir);
    At(s.(dirs := s.dirs[op.dir := d.(blob := Sealed(d.policyDigest, op.secret))],
          history := s.history + [SealedInto(op.dir, op.root, op.secret)]), p, Created)
  }

  /** tpm2_unseal: the session digest must equal the object's policy, and an empty
      success is not a released secret. */
  function StepUnseal(tpm: Tpm, s: State, p: nat): State
    requires p in s.procs && s.procs[p].op.Unseal? && s.procs[p].blob.Sealed?
  {
    var proc := s.procs[p];
    var event :=
      if proc.session == proc.blob.policy && proc.blob.secret != ""
      then Released(proc.op.dir, proc.op.root, proc.blob.secret)
      else Refused(proc.op.dir, proc.op.root);
    Exit(tpm, s.(history := s.history + [event]), p)
  }

  function Step(tpm: Tpm, s: State, p: nat): State {
    if p !in s.procs then s
    else
      var proc := s.procs[p];
      match proc.at
      case Locked => StepLocked(tpm, s, p)
      case Cleared =>
        if proc.op.Reset? || !ValidRoot(proc.op.root) then Exit(tpm, s, p)
        else At(s.(pcr := tpm.extend(s.pcr + DecodeHex(proc.op.root).value)), p, Extended)
      case Extended =>
        if proc.op.Reset? || !ValidRoot(proc.op.root) || s.pcr != Expected(tpm, proc.op.root) then Exit(tpm, s, p)
        else At(s, p, Measured)
      case Measured => if proc.op.Reset? then Exit(tpm, s, p) else StepMeasured(tpm, s, p)
      case PolicyWritten => if proc.op.Provision? then StepCreate(s, p) else Exit(tpm, s, p)
      case Created =>
        if proc.op.Provision? then
          var d := DirOf(s, proc.op.dir);
          Exit(tpm, s.(dirs := s.dirs[proc.op.dir := d.(note := proc.op.root)]), p)
        else Exit(tpm, s, p)
      case Loaded => s.(procs := s.procs[p := proc.(at := InSession, session := tpm.policy(s.pcr))])
      case InSession =>
        if proc.op.Unseal? && proc.blob.Sealed? then StepUnseal(tpm, s, p) else Exit(tpm, s, p)
  }

  function Halt(tpm: Tpm, s: State, p: nat, torn: bool): State {
    if p !in s.procs then s
    else
      var proc := s.procs[p];
      if torn && proc.at == PolicyWritten && proc.op.Provision? then
        Exit(tpm, s.(dirs := s.dirs[proc.op.dir := DirOf(s, proc.op.dir).(blob := Torn)]), p)
      else Exit(tpm, s, p)
  }

  function Apply(tpm: Tpm, s: State, a: Action): State {
    match a
    case Start(p, op) => Begin(tpm, s, p, op)
    case Advance(p) => Step(tpm, s, p)
    case Stop(p, torn) => Halt(tpm, s, p, torn)
  }

  function Exec(tpm: Tpm, s: State, run: seq<Action>): State {
    if run == [] then s else Apply(tpm, Exec(tpm, s, run[..|run| - 1]), run[|run| - 1])
  }

  /* ---------- what the history has to say ---------- */

  /** The root and secret of the latest sealing into `dir`. */
  function LastSeal(history: seq<Event>, dir: string): Option<(string, string)> {
    if history == [] then None
    else
      var e := history[|history| - 1];
      if e.SealedInto? && e.dir == dir then Some((e.root, e.secret))
      else LastSeal(history[..|history| - 1], dir)
  }

  /** A release hands out the secret last sealed into that directory, and did so under
      the policy of the root it was asked for; a refusal means those policies differ. */
  ghost predicate Justified(tpm: Tpm, before: seq<Event>, e: Event) {
    match e
    case SealedInto(_, root, secret) => ValidRoot(root) && secret != ""
    case Released(dir, root, bytes) =>
      var last := LastSeal(before, dir);
      && ValidRoot(root) && last.Some? && ValidRoot(last.value.0)
      && bytes == last.value.1
      && PcrPolicy(tpm, root) == PcrPolicy(tpm, last.value.0)
    case Refused(dir, root) =>
      var last := LastSeal(before, dir);
      && ValidRoot(root) && last.Some? && ValidRoot(last.value.0)
      && PcrPolicy(tpm, root) != PcrPolicy(tpm, last.value.0)
  }

  ghost predicate HistoryJustified(tpm: Tpm, history: seq<Event>) {
    forall i :: 0 <= i < |history| ==> Justified(tpm, history[..i], history[i])
  }

  /* ---------- the invariant ---------- */

  ghost predicate OneLock(tpm: Tpm) { forall p, q :: tpm.lockFile(p) == tpm.lockFile(q) }

  ghost predicate LockInv(tpm: Tpm, s: State) {
    forall p :: p in s.procs ==> tpm.lockFile(p) in s.locks && s.locks[tpm.lockFile(p)] == p
  }

  predicate PastExtend(at: Point) { at != Locked && at != Cleared }

  /** A holder past its extend sees exactly its own measurement. */
  ghost predicate MeasureInv(tpm: Tpm, s: State) {
    forall p :: p in s.procs && s.procs[p].at != Locked ==>
      var proc := s.procs[p];
      && !proc.op.Reset? && Admissible(proc.op)
      && (proc.at == Cleared ==> s.pcr == ZEROS)
      && (PastExtend(proc.at) ==> s.pcr == Expected(tpm, proc.op.root))
  }

  ghost predicate HolderInv(tpm: Tpm, s: State) {
    forall p :: p in s.procs ==>
      var proc := s.procs[p];
      match proc.at
      case PolicyWritten => proc.op.Provision? && DirOf(s, proc.op.dir).policyDigest == tpm.policy(s.pcr)
      case Created => proc.op.Provision?
      case Loaded => proc.op.Unseal? && proc.blob.Sealed? && proc.blob == DirOf(s, proc.op.dir).blob
      case InSession =>
        proc.op.Unseal? && proc.blob.Sealed? && proc.blob == DirOf(s, proc.op.dir).blob &&
        proc.session == tpm.policy(s.pcr)
      case _ => true
  }

  /** What lies in a seal directory is the last thing the history says was put there. */
  ghost predicate StoreInv(tpm: Tpm, s: State) {
    forall dir :: DirOf(s, dir).blob.Sealed? ==>
      var last := LastSeal(s.history, dir);
      && last.Some? && ValidRoot(last.value.0) && last.value.1 != ""
      && DirOf(s, dir).blob == Sealed(PcrPolicy(tpm, last.value.0), last.value.1)
  }

  ghost predicate Inv(tpm: Tpm, s: State) {
    LockInv(tpm, s) && MeasureInv(tpm, s) && HolderInv(tpm, s) && StoreInv(tpm, s) &&
    HistoryJustified(tpm, s.history)
  }

  lemma {:induction false} HistoryGrows(tpm: Tpm, history: seq<Event>, e: Event)
    requires HistoryJustified(tpm, history) && Justified(tpm, history, e)
    ensures HistoryJustified(tpm, history + [e])
    ensures forall dir :: LastSeal(history + [e], dir) ==
              if e.SealedInto? && e.dir == dir then Some((e.root, e.secret)) else LastSeal(history, dir)
  {
    var longer := history + [e];
    assert longer[..|history|] == history;
    forall i | 0 <= i < |longer| ensures Justified(tpm, longer[..i], longer[i]) {
      if i < |history| {
        assert longer[..i] == history[..i];
      }
    }
  }

  lemma OneHolder(tpm: Tpm, s: State, p: nat, q: nat)
    requires OneLock(tpm) && LockInv(tpm, s) && p in s.procs && q in s.procs
    ensures p == q
  {
    assert tpm.lockFile(p) == tpm.lockFile(q);
  }

  lemma NoHolder(tpm: Tpm, s: State, p: nat)
    requires OneLock(tpm) && LockInv(tpm, s) && tpm.lockFile(p) !in s.locks
    ensures s.procs == map[]
  {
    assert forall q :: q in s.procs ==> tpm.lockFile(q) == tpm.lockFile(p);
    assert s.procs.Keys == {};
  }

  lemma ExitKeepsInv(tpm: Tpm, s: State, p: nat)
    requires OneLock(tpm) && LockInv(tpm, s) && p in s.procs
    requires StoreInv(tpm, s) && HistoryJustified(tpm, s.history)
    ensures Inv(tpm, Exit(tpm, s, p))
  {
    forall q | q in s.procs ensures q == p {
      OneHolder(tpm, s, p, q);
    }
    assert Exit(tpm, s, p).procs == map[];
  }

  ghost predicate Alone(tpm: Tpm, s: State, p: nat) {
    OneLock(tpm) && Inv(tpm, s) && p in s.procs && s.procs.Keys == {p}
  }

  lemma HolderIsAlone(tpm: Tpm, s: State, p: nat)
    requires OneLock(tpm) && Inv(tpm, s) && p in s.procs
    ensures Alone(tpm, s, p)
  {
    forall q | q in s.procs ensures q == p {
      OneHolder(tpm, s, p, q);
    }
  }

  lemma EarlyKeepsInv(tpm: Tpm, s: State, p: nat)
    requires Alone(tpm, s, p) && s.procs[p].at in {Locked, Cleared, Extended}
    ensures Inv(tpm, Step(tpm, s, p))
  {
    ExitKeepsInv(tpm, s, p);
    ExitKeepsInv(tpm, s.(pcr := ZEROS), p);
  }

  lemma MeasuredKeepsInv(tpm: Tpm, s: State, p: nat)
    requires Alone(tpm, s, p) && s.procs[p].at in {Measured, Loaded}
    ensures Inv(tpm, Step(tpm, s, p))
  {
    ExitKeepsInv(tpm, s, p);
  }

  lemma CreatedKeepsInv(tpm: Tpm, s: State, p: nat)
    requires Alone(tpm, s, p) && s.procs[p].at == Created
    ensures Inv(tpm, Step(tpm, s, p))
  {
    var op := s.procs[p].op;
    var noted := s.(dirs := s.dirs[op.dir := DirOf(s, op.dir).(note := op.root)]);
    assert forall dir :: DirOf(noted, dir).blob == DirOf(s, dir).blob;
    ExitKeepsInv(tpm, noted, p);
  }

  lemma StepKeepsInv(tpm: Tpm, s: State, p: nat)
    requires OneLock(tpm) && Inv(tpm, s) && p in s.procs
    ensures Inv(tpm, Step(tpm, s, p))
  {
    HolderIsAlone(tpm, s, p);
    match s.procs[p].at {
      case Measured => MeasuredKeepsInv(tpm, s, p);
      case Loaded => MeasuredKeepsInv(tpm, s, p);
      case PolicyWritten => CreateKeepsInv(tpm, s, p);
      case Created => CreatedKeepsInv(tpm, s, p);
      case InSession => UnsealKeepsInv(tpm, s, p);
      case _ => EarlyKeepsInv(tpm, s, p);
    }
  }

  lemma CreateKeepsInv(tpm: Tpm, s: State, p: nat)
    requires OneLock(tpm) && Inv(tpm, s) && p in s.procs && s.procs[p].at == PolicyWritten
    ensures Inv(tpm, StepCreate(s, p))
  {
    forall q | q in s.procs ensures q == p {
      OneHolder(tpm, s, p, q);
    }
    var op := s.procs[p].op;
    HistoryGrows(tpm, s.history, SealedInto(op.dir, op.root, op.secret));
    var s' := StepCreate(s, p);
    forall dir | DirOf(s', dir).blob.Sealed? ensures
        var last := LastSeal(s'.history, dir);
        last.Some? && ValidRoot(last.value.0) && last.value.1 != "" &&
        DirOf(s', dir).blob == Sealed(PcrPolicy(tpm, last.value.0), last.value.1)
    {
      if dir != op.dir {
        assert DirOf(s', dir) == DirOf(s, dir);
      }
    }
  }

  lemma UnsealKeepsInv(tpm: Tpm, s: State, p: nat)
    requires OneLock(tpm) && Inv(tpm, s) && p in s.procs && s.procs[p].at == InSession
    ensures Inv(tpm, StepUnseal(tpm, s, p))
  {
    var proc := s.procs[p];
    var event := if proc.session == proc.blob.policy && proc.blob.secret != ""
                 then Released(proc.op.dir, proc.op.root, proc.blob.secret)
                 else Refused(proc.op.dir, proc.op.root);
    assert DirOf(s, proc.op.dir).blob.Sealed?;
    HistoryGrows(tpm, s.history, event);
    ExitKeepsInv(tpm, s.(history := s.history + [event]), p);
  }

  lemma ApplyKeepsInv(tpm: Tpm, s: State, a: Action)
    requires OneLock(tpm) && Inv(tpm, s)
    ensures Inv(tpm, Apply(tpm, s, a))
  {
    if a.Start? {
      if a.pid !in s.procs && tpm.lockFile(a.pid) !in s.locks {
        NoHolder(tpm, s, a.pid);
      }
    } else if a.pid in s.procs {
      if a.Advance? {
        StepKeepsInv(tpm, s, a.pid);
      } else {
        var proc := s.procs[a.pid];
        ExitKeepsInv(tpm, s, a.pid);
        if proc.at == PolicyWritten {
          var torn := s.(dirs := s.dirs[proc.op.dir := DirOf(s, proc.op.dir).(blob := Torn)]);
          assert forall dir :: dir != proc.op.dir ==> DirOf(torn, dir) == DirOf(s, dir);
          ExitKeepsInv(tpm, torn, a.pid);
        }
      }
    }
  }

  lemma {:induction false} RunKeepsInv(tpm: Tpm, pcr: string, run: seq<Action>)
    requires OneLock(tpm)
    ensures Inv(tpm, Exec(tpm, Init(pcr), run))
  {
    if run != [] {
      RunKeepsInv(tpm, pcr, run[..|run| - 1]);
      ApplyKeepsInv(tpm, Exec(tpm, Init(pcr), run[..|run| - 1]), run[|run| - 1]);
    }
  }
}
