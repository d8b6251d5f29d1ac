/** What the one lock file of pkg/tpmseal is good for: with it every answer is justified, and
    without it there is a run that gives a wrong one. */
module TpmLock {
  import opened Text
  import opened TpmSeal

  /* ---------- it is enough ---------- */

  /** In every interleaving there is one holder, and past its extend it sees
      H(zeros || its root) in the PCR until it returns. */
  lemma {:induction false} HolderSeesItsOwnMeasurement(tpm: Tpm, pcr: string, run: seq<Action>, p: nat)
    requires OneLock(tpm) && p in Exec(tpm, Init(pcr), run).procs
    ensures Exec(tpm, Init(pcr), run).procs.Keys == {p}
    ensures var s := Exec(tpm, Init(pcr), run);
            PastExtend(s.procs[p].at) ==>
              && !s.procs[p].op.Reset? && |s.procs[p].op.root| == 64 && DecodeHex(s.procs[p].op.root).Some?
              && s.pcr == tpm.extend(Repeat('\0', 32) + DecodeHex(s.procs[p].op.root).value)
  {
    RunKeepsInv(tpm, pcr, run);
    var s := Exec(tpm, Init(pcr), run);
    forall q | q in s.procs ensures q == p {
      OneHolder(tpm, s, p, q);
    }
  }

  /** The roots a statement about one release compares. */
  ghost predicate MeasurementsDistinguish(tpm: Tpm, a: string, b: string)
    requires ValidRoot(a) && ValidRoot(b)
  {
    PcrPolicy(tpm, a) == PcrPolicy(tpm, b) ==> DecodeHex(a) == DecodeHex(b)
  }

  /** Unseal releases bytes only if they are the secret last sealed into that directory
      under the same decoded root, and refuses only if that root was another one. */
  lemma {:induction false} UnsealAnswersForTheLastSeal(tpm: Tpm, pcr: string, run: seq<Action>, i: nat)
    requires OneLock(tpm)
    requires i < |Exec(tpm, Init(pcr), run).history|
    requires !Exec(tpm, Init(pcr), run).history[i].SealedInto?
    ensures
      var history := Exec(tpm, Init(pcr), run).history;
      var last := LastSeal(history[..i], history[i].dir);
      && last.Some? && ValidRoot(last.value.0) && ValidRoot(history[i].root)
      && (MeasurementsDistinguish(tpm, history[i].root, last.value.0) ==>
            (history[i].Released? <==> DecodeHex(history[i].root) == DecodeHex(last.value.0)))
      && (history[i].Released? ==> history[i].bytes == last.value.1)
  {
    RunKeepsInv(tpm, pcr, run);
    var history := Exec(tpm, Init(pcr), run).history;
    assert Justified(tpm, history[..i], history[i]);
  }

  /* ---------- and it is necessary ---------- */

  lemma {:induction false} ExecConcat(tpm: Tpm, s: State, a: seq<Action>, b: seq<Action>)
    ensures Exec(tpm, s, a + b) == Exec(tpm, Exec(tpm, s, a), b)
  {
    if b == [] {
      assert a + b == a;
    } else {
      var ab := a + b;
      assert ab[..|ab| - 1] == a + b[..|b| - 1];
      ExecConcat(tpm, s, a, b[..|b| - 1]);
    }
  }

  /** Some run leads from `s` to `s'`. */
  ghost predicate Leads(tpm: Tpm, s: State, s': State) { exists run :: Exec(tpm, s, run) == s' }

  lemma LeadsStep(tpm: Tpm, s: State, s': State, a: Action)
    requires Leads(tpm, s, s')
    ensures Leads(tpm, s, Apply(tpm, s', a))
  {
    var run :| Exec(tpm, s, run) == s';
    assert (run + [a])[..|run|] == run;
    assert Exec(tpm, s, run + [a]) == Apply(tpm, s', a);
  }

  lemma LeadsTo(tpm: Tpm, s: State, s': State, s'': State)
    requires Leads(tpm, s, s') && Leads(tpm, s', s'')
    ensures Leads(tpm, s, s'')
  {
    var a :| Exec(tpm, s, a) == s';
    var b :| Exec(tpm, s', b) == s'';
    ExecConcat(tpm, s, a, b);
  }

  /** The state in which `p` alone has moved: it holds its lock at `point`, and the PCR is `pcr`. */
  function Holding(tpm: Tpm, s: State, p: nat, op: Op, point: Point, pcr: string): State {
    s.(pcr := pcr, locks := s.locks[tpm.lockFile(p) := p], procs := s.procs[p := Proc(op, point, Absent, "")])
  }

  function MeasuredState(tpm: Tpm, s: State, p: nat, op: Op): State
    requires !op.Reset? && Admissible(op)
  {
    Holding(tpm, s, p, op, Measured, Expected(tpm, op.root))
  }

  /** What the PCR is at a point of the measurement. */
  function PcrAt(tpm: Tpm, s: State, op: Op, at: Point): string
    requires !op.Reset? && Admissible(op)
  {
    match at
    case Locked => s.pcr
    case Cleared => ZEROS
    case _ => Expected(tpm, op.root)
  }

  lemma FromPoint(tpm: Tpm, s: State, p: nat, op: Op, at: Point, next: Point)
    requires !op.Reset? && Admissible(op)
    requires (at, next) in {(Locked, Cleared), (Cleared, Extended), (Extended, Measured)}
    ensures Step(tpm, Holding(tpm, s, p, op, at, PcrAt(tpm, s, op, at)), p) ==
            Holding(tpm, s, p, op, next, PcrAt(tpm, s, op, next))
  {
    var after := Step(tpm, Holding(tpm, s, p, op, at, PcrAt(tpm, s, op, at)), p);
    assert after.procs == s.procs[p := Proc(op, next, Absent, "")];
  }

  /** Left alone, a process with a free lock file reaches the measured state. */
  lemma MeasureRun(tpm: Tpm, s: State, p: nat, op: Op)
    requires !op.Reset? && Admissible(op)
    requires p !in s.procs && tpm.lockFile(p) !in s.locks
    ensures Leads(tpm, s, MeasuredState(tpm, s, p, op))
  {
    assert Exec(tpm, s, []) == s;
    LeadsStep(tpm, s, s, Start(p, op));
    assert Begin(tpm, s, p, op) == Holding(tpm, s, p, op, Locked, s.pcr);
    FromPoint(tpm, s, p, op, Locked, Cleared);
    LeadsStep(tpm, s, Holding(tpm, s, p, op, Locked, s.pcr), Advance(p));
    FromPoint(tpm, s, p, op, Cleared, Extended);
    LeadsStep(tpm, s, Holding(tpm, s, p, op, Cleared, ZEROS), Advance(p));
    FromPoint(tpm, s, p, op, Extended, Measured);
    LeadsStep(tpm, s, Holding(tpm, s, p, op, Extended, Expected(tpm, op.root)), Advance(p));
  }

  /** Left alone, Reset leaves the PCR at 32 zeros, its lock free, and nothing else changed. */
  lemma ResetRun(tpm: Tpm, s: State, p: nat)
    requires p !in s.procs && tpm.lockFile(p) !in s.locks
    ensures Leads(tpm, s, s.(pcr := Repeat('\0', 32)))
  {
    assert Exec(tpm, s, []) == s;
    LeadsStep(tpm, s, s, Start(p, Reset));
    var held := Begin(tpm, s, p, Reset);
    LeadsStep(tpm, s, held, Advance(p));
    var after := Step(tpm, held, p);
    assert after.procs == s.procs && after.locks == s.locks;
  }

  function ProvisionedState(tpm: Tpm, s: State, dir: string, root: string, secret: string): State
    requires ValidRoot(root)
  {
    s.(pcr := Expected(tpm, root),
       dirs := s.dirs[dir := SealDir(PcrPolicy(tpm, root), Sealed(PcrPolicy(tpm, root), secret), root)],
       history := s.history + [SealedInto(dir, root, secret)])
  }

  lemma ProvisionTail(tpm: Tpm, s: State, p: nat, op: Op)
    requires p in s.procs && s.procs[p] == Proc(op, Measured, Absent, "") && op.Provision?
    ensures Leads(tpm, s, Exit(tpm, s.(
      dirs := s.dirs[op.dir := SealDir(tpm.policy(s.pcr), Sealed(tpm.policy(s.pcr), op.secret), op.root)],
      history := s.history + [SealedInto(op.dir, op.root, op.secret)]), p))
  {
    assert Exec(tpm, s, []) == s;
    LeadsStep(tpm, s, s, Advance(p));
    var s1 := Step(tpm, s, p);
    assert DirOf(s1, op.dir).policyDigest == tpm.policy(s.pcr);
    LeadsStep(tpm, s, s1, Advance(p));
    var s2 := StepCreate(s1, p);
    assert DirOf(s2, op.dir).blob == Sealed(tpm.policy(s.pcr), op.secret);
    assert s2.procs[p] == Proc(op, Created, Absent, "");
    LeadsStep(tpm, s, s2, Advance(p));
    var s3 := Step(tpm, s2, p);
    assert s3.dirs == s.dirs[op.dir := DirOf(s3, op.dir)];
    assert s3.procs == s.procs - {p};
  }

  /** Left alone, Provision seals the secret under the policy of its root. */
  lemma ProvisionRun(tpm: Tpm, s: State, p: nat, dir: string, root: string, secret: string)
    requires ValidRoot(root) && secret != ""
    requires p !in s.procs && tpm.lockFile(p) !in s.locks
    ensures Leads(tpm, s, ProvisionedState(tpm, s, dir, root, secret))
  {
    var op := Provision(dir, root, secret);
    MeasureRun(tpm, s, p, op);
    var s1 := MeasuredState(tpm, s, p, op);
    ProvisionTail(tpm, s1, p, op);
    assert s1.procs - {p} == s.procs && s1.locks - {tpm.lockFile(p)} == s.locks;
    LeadsTo(tpm, s, s1, ProvisionedState(tpm, s, dir, root, secret));
  }

  /** From the measured state with a sealed directory, three tool calls reach an answer
      that depends on the PCR as it is now, not on the root that was asked for. */
  lemma UnsealTail(tpm: Tpm, s: State, p: nat, dir: string, root: string)
    requires p in s.procs && s.procs[p] == Proc(Unseal(dir, root), Measured, Absent, "")
    requires DirOf(s, dir).blob.Sealed? && DirOf(s, dir).blob.policy == tpm.policy(s.pcr)
    requires DirOf(s, dir).blob.secret != ""
    ensures exists s' :: Leads(tpm, s, s') && s'.history == s.history + [Released(dir, root, DirOf(s, dir).blob.secret)]
  {
    assert Exec(tpm, s, []) == s;
    LeadsStep(tpm, s, s, Advance(p));
    var s1 := Step(tpm, s, p);
    LeadsStep(tpm, s, s1, Advance(p));
    var s2 := Step(tpm, s1, p);
    LeadsStep(tpm, s, s2, Advance(p));
  }

  /** With two lock files one process can unseal against the other's measurement. */
  lemma TwoLocksReleaseTheWrongSecret(
      tpm: Tpm, pcr: string, p: nat, q: nat, dir: string, r1: string, r2: string, secret: string)
    requires tpm.lockFile(p) != tpm.lockFile(q)
    requires ValidRoot(r1) && ValidRoot(r2) && secret != ""
    ensures exists run :: Exec(tpm, Init(pcr), run).history == [SealedInto(dir, r2, secret), Released(dir, r1, secret)]
  {
    ProvisionRun(tpm, Init(pcr), q, dir, r2, secret);
    var s1 := ProvisionedState(tpm, Init(pcr), dir, r2, secret);
    MeasureRun(tpm, s1, p, Unseal(dir, r1));
    var s2 := MeasuredState(tpm, s1, p, Unseal(dir, r1));
    MeasureRun(tpm, s2, q, Unseal(dir, r2));
    var s3 := MeasuredState(tpm, s2, q, Unseal(dir, r2));
    LeadsTo(tpm, Init(pcr), s1, s2);
    LeadsTo(tpm, Init(pcr), s2, s3);
    UnsealTail(tpm, s3, p, dir, r1);
    var s4 :| Leads(tpm, s3, s4) && s4.history == s3.history + [Released(dir, r1, secret)];
    LeadsTo(tpm, Init(pcr), s3, s4);
  }

  /** Every run keeps every release and refusal justified exactly when all processes
      resolve the same lock file. */
  lemma SafeIffOneLock(tpm: Tpm, pcr: string, r1: string, r2: string)
    requires ValidRoot(r1) && ValidRoot(r2) && PcrPolicy(tpm, r1) != PcrPolicy(tpm, r2)
    ensures OneLock(tpm) <==> forall run :: HistoryJustified(tpm, Exec(tpm, Init(pcr), run).history)
  {
    if OneLock(tpm) {
      forall run ensures HistoryJustified(tpm, Exec(tpm, Init(pcr), run).history) {
        RunKeepsInv(tpm, pcr, run);
      }
    } else {
      var p, q :| tpm.lockFile(p) != tpm.lockFile(q);
      TwoLocksReleaseTheWrongSecret(tpm, pcr, p, q, "seal", r1, r2, "secret");
      var run :| Exec(tpm, Init(pcr), run).history ==
          [SealedInto("seal", r2, "secret"), Released("seal", r1, "secret")];
      var history := Exec(tpm, Init(pcr), run).history;
      assert history[..1] == [SealedInto("seal", r2, "secret")];
      assert LastSeal(history[..1], "seal") == Some((r2, "secret"));
      assert !Justified(tpm, history[..1], history[1]);
    }
  }
}
