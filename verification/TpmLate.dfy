/** pkg/tpmseal again, with tools that outlive the process that started them.

    The lock's descriptor is closed on exec. So when a process is killed during a tool call,
    the kernel drops its flock at once while the tool goes on, and may have its effect
    inside the sequence of the next holder. What is late is the effect: the tool has read its
    inputs by the time its process is killed. */
module TpmLate {
  import opened Text
  import opened TpmSeal
  import opened TpmLock

  /** The tool calls that change something outside their process. */
  datatype Call =
    | ResetCall
    | ExtendCall(digest: string)
    | PolicyCall(dir: string, digest: string)
    | CreateCall(dir: string, policy: string, root: string, secret: string)

  datatype World = World(now: State, late: seq<Call>)

  /** Kill: a process dies and its tool goes on. Land: one of these tools has its effect. */
  datatype Move = Act(a: Action) | Kill(pid: nat) | Land(which: nat)

  /** What the holder's tool is about to do, if it is anything that stays. */
  function InFlight(tpm: Tpm, s: State, p: nat): Option<Call>
    requires p in s.procs
  {
    var proc := s.procs[p];
    match proc.at
    case Locked => if Admissible(proc.op) then Some(ResetCall) else None
    case Cleared =>
      if proc.op.Reset? || !ValidRoot(proc.op.root) then None else Some(ExtendCall(DecodeHex(proc.op.root).value))
    case Measured => if proc.op.Provision? then Some(PolicyCall(proc.op.dir, tpm.policy(s.pcr))) else None
    case PolicyWritten =>
      if proc.op.Provision?
      then Some(CreateCall(proc.op.dir, DirOf(s, proc.op.dir).policyDigest, proc.op.root, proc.op.secret))
      else None
    case _ => None
  }

  function Effect(tpm: Tpm, s: State, c: Call): State {
    match c
    case ResetCall => s.(pcr := ZEROS)
    case ExtendCall(digest) => s.(pcr := tpm.extend(s.pcr + digest))
    case PolicyCall(dir, digest) => s.(dirs := s.dirs[dir := DirOf(s, dir).(policyDigest := digest)])
    case CreateCall(dir, policy, root, secret) =>
      s.(dirs := s.dirs[dir := DirOf(s, dir).(blob := Sealed(policy, secret))],
         history := s.history + [SealedInto(dir, root, secret)])
  }

  /** A late effect is what the step would have done that the kill cut short: to the PCR, to the
      directories, and to what was sealed. */
  lemma LateEffectIsTheStep(tpm: Tpm, s: State, p: nat)
    requires p in s.procs && InFlight(tpm, s, p).Some?
    ensures var late, step := Effect(tpm, s, InFlight(tpm, s, p).value), Step(tpm, s, p);
            late.pcr == step.pcr && late.dirs == step.dirs && late.history == step.history
  {
  }

  /** `points` are where a holder may be when a late effect comes. */
  ghost predicate Among(points: set<Point>, s: State) { forall p :: p in s.procs ==> s.procs[p].at in points }

  ghost function Next(tpm: Tpm, points: set<Point>, w: World, m: Move): World {
    match m
    case Act(a) => w.(now := Apply(tpm, w.now, a))
    case Kill(p) =>
      if p !in w.now.procs then w
      else World(Exit(tpm, w.now, p),
                 match InFlight(tpm, w.now, p) case None => w.late case Some(c) => w.late + [c])
    case Land(i) =>
      if i < |w.late| && Among(points, w.now)
      then World(Effect(tpm, w.now, w.late[i]), w.late[..i] + w.late[i + 1..])
      else w
  }

  ghost function Exec(tpm: Tpm, points: set<Point>, w: World, run: seq<Move>): World {
    if run == [] then w else Next(tpm, points, Exec(tpm, points, w, run[..|run| - 1]), run[|run| - 1])
  }

  function Booted(pcr: string): World { World(Init(pcr), []) }

  /** From the read-back of the PCR to the sealed object, or to the answer. */
  const WINDOW: set<Point> := {Measured, PolicyWritten, Loaded, InSession}

  /* ---------- outside the window nothing is lost ---------- */

  ghost predicate HolderInv(tpm: Tpm, s: State) {
    forall p :: p in s.procs && s.procs[p].at != Locked ==> Holds(tpm, s, s.procs[p])
  }

  /** What a holder may rely on. Before the read-back it is nothing about the PCR. */
  ghost predicate Holds(tpm: Tpm, s: State, proc: Proc) {
    && !proc.op.Reset? && Admissible(proc.op)
    && match proc.at
       case Measured => s.pcr == Expected(tpm, proc.op.root)
       case PolicyWritten => proc.op.Provision? && DirOf(s, proc.op.dir).policyDigest == PcrPolicy(tpm, proc.op.root)
       case Created => proc.op.Provision?
       case Loaded =>
         && proc.op.Unseal? && proc.blob.Sealed? && proc.blob == DirOf(s, proc.op.dir).blob
         && s.pcr == Expected(tpm, proc.op.root)
       case InSession =>
         && proc.op.Unseal? && proc.blob.Sealed? && proc.blob == DirOf(s, proc.op.dir).blob
         && proc.session == PcrPolicy(tpm, proc.op.root)
       case _ => true
  }

  /** A late object is what its process would have sealed. */
  ghost predicate Sound(tpm: Tpm, c: Call) {
    c.CreateCall? ==> ValidRoot(c.root) && c.secret != "" && c.policy == PcrPolicy(tpm, c.root)
  }

  ghost predicate Inv(tpm: Tpm, w: World) {
    && LockInv(tpm, w.now) && HolderInv(tpm, w.now) && StoreInv(tpm, w.now)
    && HistoryJustified(tpm, w.now.history) && forall c :: c in w.late ==> Sound(tpm, c)
  }

  /** With one lock file `p` is the only holder. */
  ghost predicate Alone(tpm: Tpm, w: World, p: nat) {
    OneLock(tpm) && Inv(tpm, w) && p in w.now.procs && w.now.procs.Keys == {p}
  }

  lemma ExitKeepsInv(tpm: Tpm, w: World, s: State, p: nat)
    requires OneLock(tpm) && LockInv(tpm, s) && p in s.procs && StoreInv(tpm, s) && HistoryJustified(tpm, s.history)
    requires forall c :: c in w.late ==> Sound(tpm, c)
    ensures Inv(tpm, w.(now := Exit(tpm, s, p)))
  {
    forall q | q in s.procs ensures q == p {
      OneHolder(tpm, s, p, q);
    }
    assert Exit(tpm, s, p).procs == map[];
  }

  lemma EarlyKeepsInv(tpm: Tpm, w: World, p: nat)
    requires Alone(tpm, w, p) && w.now.procs[p].at in {Locked, Cleared, Extended}
    ensures Inv(tpm, w.(now := Step(tpm, w.now, p)))
  {
    ExitKeepsInv(tpm, w, w.now, p);
    ExitKeepsInv(tpm, w, w.now.(pcr := ZEROS), p);
  }

  lemma MeasuredKeepsInv(tpm: Tpm, w: World, p: nat)
    requires Alone(tpm, w, p) && w.now.procs[p].at in {Measured, Loaded}
    ensures Inv(tpm, w.(now := Step(tpm, w.now, p)))
  {
    ExitKeepsInv(tpm, w, w.now, p);
  }

  /** An object sealed under the policy of its root, by a holder or late. */
  lemma SealingKeepsStore(tpm: Tpm, s: State, dir: string, root: string, secret: string)
    requires StoreInv(tpm, s) && HistoryJustified(tpm, s.history) && ValidRoot(root) && secret != ""
    ensures var s' := Effect(tpm, s, CreateCall(dir, PcrPolicy(tpm, root), root, secret));
            StoreInv(tpm, s') && HistoryJustified(tpm, s'.history)
  {
    HistoryGrows(tpm, s.history, SealedInto(dir, root, secret));
    var s' := Effect(tpm, s, CreateCall(dir, PcrPolicy(tpm, root), root, secret));
    forall d | DirOf(s', d).blob.Sealed? ensures
        var last := LastSeal(s'.history, d);
        last.Some? && ValidRoot(last.value.0) && last.value.1 != "" &&
        DirOf(s', d).blob == Sealed(PcrPolicy(tpm, last.value.0), last.value.1)
    {
      if d != dir {
        assert DirOf(s', d) == DirOf(s, d);
      }
    }
  }

  lemma CreateKeepsInv(tpm: Tpm, w: World, p: nat)
    requires Alone(tpm, w, p) && w.now.procs[p].at == PolicyWritten
    ensures Inv(tpm, w.(now := Step(tpm, w.now, p)))
  {
    var op := w.now.procs[p].op;
    SealingKeepsStore(tpm, w.now, op.dir, op.root, op.secret);
  }

  lemma CreatedKeepsInv(tpm: Tpm, w: World, p: nat)
    requires Alone(tpm, w, p) && w.now.procs[p].at == Created
    ensures Inv(tpm, w.(now := Step(tpm, w.now, p)))
  {
    var op := w.now.procs[p].op;
    var noted := w.now.(dirs := w.now.dirs[op.dir := DirOf(w.now, op.dir).(note := op.root)]);
    assert forall dir :: DirOf(noted, dir).blob == DirOf(w.now, dir).blob;
    ExitKeepsInv(tpm, w, noted, p);
  }

  lemma UnsealKeepsInv(tpm: Tpm, w: World, p: nat)
    requires Alone(tpm, w, p) && w.now.procs[p].at == InSession
    ensures Inv(tpm, w.(now := Step(tpm, w.now, p)))
  {
    var s, proc := w.now, w.now.procs[p];
    var event := if proc.session == proc.blob.policy && proc.blob.secret != ""
                 then Released(proc.op.dir, proc.op.root, proc.blob.secret)
                 else Refused(proc.op.dir, proc.op.root);
    assert DirOf(s, proc.op.dir).blob.Sealed?;
    HistoryGrows(tpm, s.history, event);
    ExitKeepsInv(tpm, w, s.(history := s.history + [event]), p);
  }

  lemma StepKeepsInv(tpm: Tpm, w: World, p: nat)
    requires OneLock(tpm) && Inv(tpm, w) && p in w.now.procs
    ensures Inv(tpm, w.(now := Step(tpm, w.now, p)))
  {
    forall q | q in w.now.procs ensures q == p {
      OneHolder(tpm, w.now, p, q);
    }
    match w.now.procs[p].at {
      case Measured => MeasuredKeepsInv(tpm, w, p);
      case Loaded => MeasuredKeepsInv(tpm, w, p);
      case PolicyWritten => CreateKeepsInv(tpm, w, p);
      case Created => CreatedKeepsInv(tpm, w, p);
      case InSession => UnsealKeepsInv(tpm, w, p);
      case _ => EarlyKeepsInv(tpm, w, p);
    }
  }

  lemma HaltKeepsInv(tpm: Tpm, w: World, p: nat, torn: bool)
    requires OneLock(tpm) && Inv(tpm, w)
    ensures Inv(tpm, w.(now := Halt(tpm, w.now, p, torn)))
  {
    if p in w.now.procs {
      var s, dir := w.now, if w.now.procs[p].op.Provision? then w.now.procs[p].op.dir else "";
      var half := s.(dirs := s.dirs[dir := DirOf(s, dir).(blob := Torn)]);
      assert forall d :: d != dir ==> DirOf(half, d) == DirOf(s, d);
      ExitKeepsInv(tpm, w, s, p);
      ExitKeepsInv(tpm, w, half, p);
    }
  }

  lemma LandKeepsInv(tpm: Tpm, points: set<Point>, w: World, i: nat)
    requires OneLock(tpm) && Inv(tpm, w) && points !! WINDOW && i < |w.late| && Among(points, w.now)
    ensures Inv(tpm, Next(tpm, points, w, Land(i)))
  {
    var c := w.late[i];
    assert Sound(tpm, c);
    if c.CreateCall? {
      SealingKeepsStore(tpm, w.now, c.dir, c.root, c.secret);
    }
    var s' := Effect(tpm, w.now, c);
    if c.PolicyCall? {
      assert forall d :: DirOf(s', d).blob == DirOf(w.now, d).blob;
    }
    assert HolderInv(tpm, s') by {
      forall p | p in s'.procs && s'.procs[p].at != Locked ensures Holds(tpm, s', s'.procs[p]) {
        assert w.now.procs[p].at in points && w.now.procs[p].at !in WINDOW;
        assert Holds(tpm, w.now, w.now.procs[p]);
      }
    }
  }

  lemma NextKeepsInv(tpm: Tpm, points: set<Point>, w: World, m: Move)
    requires OneLock(tpm) && Inv(tpm, w) && points !! WINDOW
    ensures Inv(tpm, Next(tpm, points, w, m))
  {
    match m {
      case Act(Start(p, op)) =>
        if p !in w.now.procs && tpm.lockFile(p) !in w.now.locks {
          NoHolder(tpm, w.now, p);
        }
      case Act(Advance(p)) =>
        if p in w.now.procs {
          StepKeepsInv(tpm, w, p);
        }
      case Act(Stop(p, torn)) => HaltKeepsInv(tpm, w, p, torn);
      case Kill(p) =>
        if p in w.now.procs {
          ExitKeepsInv(tpm, Next(tpm, points, w, m), w.now, p);
        }
      case Land(i) =>
        if i < |w.late| && Among(points, w.now) {
          LandKeepsInv(tpm, points, w, i);
        }
    }
  }

  /** Late effects that miss the window leave every release and refusal justified. */
  lemma {:induction false} RunKeepsInv(tpm: Tpm, points: set<Point>, pcr: string, run: seq<Move>)
    requires OneLock(tpm) && points !! WINDOW
    ensures Inv(tpm, Exec(tpm, points, Booted(pcr), run))
  {
    if run != [] {
      RunKeepsInv(tpm, points, pcr, run[..|run| - 1]);
      NextKeepsInv(tpm, points, Exec(tpm, points, Booted(pcr), run[..|run| - 1]), run[|run| - 1]);
    }
  }

  /* ---------- inside the window an answer can be wrong ---------- */

  ghost predicate Reached(tpm: Tpm, points: set<Point>, pcr: string, w: World) {
    exists run :: Exec(tpm, points, Booted(pcr), run) == w
  }

  lemma Reach(tpm: Tpm, points: set<Point>, pcr: string, w: World, m: Move)
    requires Reached(tpm, points, pcr, w)
    ensures Reached(tpm, points, pcr, Next(tpm, points, w, m))
  {
    var run :| Exec(tpm, points, Booted(pcr), run) == w;
    assert (run + [m])[..|run|] == run;
    assert Exec(tpm, points, Booted(pcr), run + [m]) == Next(tpm, points, w, m);
  }

  lemma {:induction false} ReachRun(tpm: Tpm, points: set<Point>, pcr: string, w: World, run: seq<Action>)
    requires Reached(tpm, points, pcr, w)
    ensures Reached(tpm, points, pcr, w.(now := TpmSeal.Exec(tpm, w.now, run)))
  {
    if run != [] {
      var init := run[..|run| - 1];
      ReachRun(tpm, points, pcr, w, init);
      Reach(tpm, points, pcr, w.(now := TpmSeal.Exec(tpm, w.now, init)), Act(run[|run| - 1]));
    } else {
      assert w.(now := TpmSeal.Exec(tpm, w.now, run)) == w;
    }
  }

  lemma ReachTo(tpm: Tpm, points: set<Point>, pcr: string, w: World, s: State)
    requires Reached(tpm, points, pcr, w) && Leads(tpm, w.now, s)
    ensures Reached(tpm, points, pcr, w.(now := s))
  {
    var run :| TpmSeal.Exec(tpm, w.now, run) == s;
    ReachRun(tpm, points, pcr, w, run);
  }

  /** Some run gives an answer that is not justified. */
  ghost predicate GoesWrong(tpm: Tpm, points: set<Point>, pcr: string) {
    exists run :: !HistoryJustified(tpm, Exec(tpm, points, Booted(pcr), run).now.history)
  }

  /** One process holds the lock, and nobody else does anything. */
  ghost predicate Sole(tpm: Tpm, w: World, p: nat, proc: Proc) {
    w.now.procs == map[p := proc] && w.now.locks == map[tpm.lockFile(p) := p]
  }

  ghost predicate Free(w: World) { w.now.procs == map[] && w.now.locks == map[] }

  lemma Measuring(tpm: Tpm, points: set<Point>, pcr: string, w: World, p: nat, op: Op) returns (w': World)
    requires Reached(tpm, points, pcr, w) && Free(w) && !op.Reset? && Admissible(op)
    ensures Reached(tpm, points, pcr, w') && Sole(tpm, w', p, Proc(op, Measured, Absent, ""))
    ensures w' == w.(now := w.now.(pcr := Expected(tpm, op.root), procs := w'.now.procs, locks := w'.now.locks))
  {
    MeasureRun(tpm, w.now, p, op);
    w' := w.(now := MeasuredState(tpm, w.now, p, op));
    ReachTo(tpm, points, pcr, w, w'.now);
  }

  lemma Writing(tpm: Tpm, points: set<Point>, pcr: string, w: World, p: nat, op: Op) returns (w': World)
    requires Reached(tpm, points, pcr, w) && Sole(tpm, w, p, Proc(op, Measured, Absent, "")) && op.Provision?
    ensures Reached(tpm, points, pcr, w') && Sole(tpm, w', p, Proc(op, PolicyWritten, Absent, ""))
    ensures w'.late == w.late && DirOf(w'.now, op.dir).policyDigest == tpm.policy(w.now.pcr)
  {
    Reach(tpm, points, pcr, w, Act(Advance(p)));
    w' := Next(tpm, points, w, Act(Advance(p)));
  }

  /** A provision seals under whatever its digest file says, and returns. */
  lemma Creating(tpm: Tpm, points: set<Point>, pcr: string, w: World, p: nat, op: Op) returns (w': World)
    requires Reached(tpm, points, pcr, w) && Sole(tpm, w, p, Proc(op, PolicyWritten, Absent, "")) && op.Provision?
    ensures Reached(tpm, points, pcr, w') && Free(w') && w'.late == w.late
    ensures DirOf(w'.now, op.dir).blob == Sealed(DirOf(w.now, op.dir).policyDigest, op.secret)
    ensures LastSeal(w'.now.history, op.dir) == Some((op.root, op.secret))
  {
    Reach(tpm, points, pcr, w, Act(Advance(p)));
    var created := Next(tpm, points, w, Act(Advance(p)));
    assert created.now == StepCreate(w.now, p);
    Reach(tpm, points, pcr, created, Act(Advance(p)));
    w' := Next(tpm, points, created, Act(Advance(p)));
  }

  lemma Provisioned(tpm: Tpm, points: set<Point>, pcr: string, w: World, dir: string, root: string, secret: string)
    returns (w': World)
    requires Reached(tpm, points, pcr, w) && Free(w) && ValidRoot(root) && secret != ""
    ensures Reached(tpm, points, pcr, w') && Free(w') && w'.late == w.late
    ensures DirOf(w'.now, dir).blob == Sealed(PcrPolicy(tpm, root), secret)
    ensures LastSeal(w'.now.history, dir) == Some((root, secret))
  {
    var op := Provision(dir, root, secret);
    w' := Measuring(tpm, points, pcr, w, 0, op);
    w' := Writing(tpm, points, pcr, w', 0, op);
    w' := Creating(tpm, points, pcr, w', 0, op);
  }

  /** From the measured state of an unseal to the loaded one, and on to its policy session. */
  lemma Loading(tpm: Tpm, points: set<Point>, pcr: string, w: World, p: nat, op: Op) returns (w': World)
    requires Reached(tpm, points, pcr, w) && Sole(tpm, w, p, Proc(op, Measured, Absent, ""))
    requires op.Unseal? && DirOf(w.now, op.dir).blob.Sealed?
    ensures Reached(tpm, points, pcr, w') && Sole(tpm, w', p, Proc(op, Loaded, DirOf(w.now, op.dir).blob, ""))
    ensures w' == w.(now := w.now.(procs := w'.now.procs))
  {
    Reach(tpm, points, pcr, w, Act(Advance(p)));
    w' := Next(tpm, points, w, Act(Advance(p)));
  }

  lemma Authorising(tpm: Tpm, points: set<Point>, pcr: string, w: World, p: nat, op: Op, blob: Blob)
    returns (w': World)
    requires Reached(tpm, points, pcr, w) && Sole(tpm, w, p, Proc(op, Loaded, blob, ""))
    ensures Reached(tpm, points, pcr, w') && Sole(tpm, w', p, Proc(op, InSession, blob, tpm.policy(w.now.pcr)))
    ensures w' == w.(now := w.now.(procs := w'.now.procs))
  {
    Reach(tpm, points, pcr, w, Act(Advance(p)));
    w' := Next(tpm, points, w, Act(Advance(p)));
  }

  /** The answer of an unseal, and that it is a wrong one. */
  lemma Answering(tpm: Tpm, points: set<Point>, pcr: string, w: World, p: nat, op: Op, blob: Blob, session: string)
    requires Reached(tpm, points, pcr, w) && Sole(tpm, w, p, Proc(op, InSession, blob, session))
    requires op.Unseal? && blob.Sealed?
    requires !Justified(tpm, w.now.history,
                        if session == blob.policy && blob.secret != "" then Released(op.dir, op.root, blob.secret)
                        else Refused(op.dir, op.root))
    ensures GoesWrong(tpm, points, pcr)
  {
    var event := if session == blob.policy && blob.secret != "" then Released(op.dir, op.root, blob.secret)
                 else Refused(op.dir, op.root);
    Reach(tpm, points, pcr, w, Act(Advance(p)));
    var answered := Next(tpm, points, w, Act(Advance(p)));
    var run :| Exec(tpm, points, Booted(pcr), run) == answered;
    var history := Exec(tpm, points, Booted(pcr), run).now.history;
    assert history == w.now.history + [event];
    assert history[..|w.now.history|] == w.now.history && history[|w.now.history|] == event;
  }

  lemma Landing(tpm: Tpm, points: set<Point>, pcr: string, w: World, p: nat, proc: Proc, c: Call) returns (w': World)
    requires Reached(tpm, points, pcr, w) && Sole(tpm, w, p, proc) && proc.at in points && w.late == [c]
    ensures Reached(tpm, points, pcr, w') && w' == World(Effect(tpm, w.now, c), [])
  {
    Reach(tpm, points, pcr, w, Land(0));
    w' := Next(tpm, points, w, Land(0));
  }

  /** A process takes the lock to reset, and is killed during the call. */
  lemma LosingReset(tpm: Tpm, points: set<Point>, pcr: string, w: World) returns (w': World)
    requires Reached(tpm, points, pcr, w) && Free(w)
    ensures Reached(tpm, points, pcr, w') && w' == w.(late := w.late + [ResetCall])
  {
    Reach(tpm, points, pcr, w, Act(Start(1, Reset)));
    var held := Next(tpm, points, w, Act(Start(1, Reset)));
    Reach(tpm, points, pcr, held, Kill(1));
    w' := Next(tpm, points, held, Kill(1));
    assert w'.now.procs == map[] && w'.now.locks == map[];
  }

  /** A late reset during an unseal, before its policy session: the very root sealed is refused. */
  lemma LateResetRefuses(tpm: Tpm, points: set<Point>, pcr: string, root: string)
    requires ValidRoot(root) && tpm.policy(ZEROS) != PcrPolicy(tpm, root)
    requires Measured in points || Loaded in points
    ensures GoesWrong(tpm, points, pcr)
  {
    assert Exec(tpm, points, Booted(pcr), []) == Booted(pcr);
    var w := Provisioned(tpm, points, pcr, Booted(pcr), "seal", root, "secret");
    var op, blob := Unseal("seal", root), Sealed(PcrPolicy(tpm, root), "secret");
    w := LosingReset(tpm, points, pcr, w);
    w := Measuring(tpm, points, pcr, w, 0, op);
    w := ResetWhileLoading(tpm, points, pcr, w, op);
    w := Authorising(tpm, points, pcr, w, 0, op, blob);
    Answering(tpm, points, pcr, w, 0, op, blob, tpm.policy(ZEROS));
  }

  /** The reset lands before the object is loaded, or after it. */
  lemma ResetWhileLoading(tpm: Tpm, points: set<Point>, pcr: string, w: World, op: Op) returns (w': World)
    requires Reached(tpm, points, pcr, w) && Sole(tpm, w, 0, Proc(op, Measured, Absent, "")) && w.late == [ResetCall]
    requires op.Unseal? && DirOf(w.now, op.dir).blob.Sealed?
    requires Measured in points || Loaded in points
    ensures Reached(tpm, points, pcr, w') && Sole(tpm, w', 0, Proc(op, Loaded, DirOf(w.now, op.dir).blob, ""))
    ensures w'.now.pcr == ZEROS && w'.now.history == w.now.history
  {
    if Measured in points {
      w' := Landing(tpm, points, pcr, w, 0, Proc(op, Measured, Absent, ""), ResetCall);
      w' := Loading(tpm, points, pcr, w', 0, op);
    } else {
      w' := Loading(tpm, points, pcr, w, 0, op);
      w' := Landing(tpm, points, pcr, w', 0, Proc(op, Loaded, DirOf(w.now, op.dir).blob, ""), ResetCall);
    }
  }

  /** A provision is killed while its object is made. */
  lemma LosingObject(tpm: Tpm, points: set<Point>, pcr: string, dir: string, root: string, secret: string)
    returns (w': World)
    requires ValidRoot(root) && secret != ""
    ensures Reached(tpm, points, pcr, w') && Free(w')
    ensures w'.late == [CreateCall(dir, PcrPolicy(tpm, root), root, secret)]
  {
    assert Exec(tpm, points, Booted(pcr), []) == Booted(pcr);
    var op := Provision(dir, root, secret);
    var w := Measuring(tpm, points, pcr, Booted(pcr), 1, op);
    w := Writing(tpm, points, pcr, w, 1, op);
    Reach(tpm, points, pcr, w, Kill(1));
    w' := Next(tpm, points, w, Kill(1));
  }

  /** A late object during an unseal: what is released is not what was sealed last. */
  lemma LateObjectIsMissed(tpm: Tpm, points: set<Point>, pcr: string, root: string)
    requires ValidRoot(root) && InSession in points
    ensures GoesWrong(tpm, points, pcr)
  {
    var w := LosingObject(tpm, points, pcr, "seal", root, "another");
    w := Provisioned(tpm, points, pcr, w, "seal", root, "secret");
    var op, blob := Unseal("seal", root), Sealed(PcrPolicy(tpm, root), "secret");
    w := Measuring(tpm, points, pcr, w, 0, op);
    w := Loading(tpm, points, pcr, w, 0, op);
    w := Authorising(tpm, points, pcr, w, 0, op, blob);
    var history := w.now.history;
    w := Landing(tpm, points, pcr, w, 0, Proc(op, InSession, blob, PcrPolicy(tpm, root)),
                 CreateCall("seal", PcrPolicy(tpm, root), root, "another"));
    assert LastSeal(w.now.history, "seal") == Some((root, "another"));
    Answering(tpm, points, pcr, w, 0, op, blob, PcrPolicy(tpm, root));
  }

  /** A provision is killed while its policy digest is written. */
  lemma LosingDigest(tpm: Tpm, points: set<Point>, pcr: string, dir: string, root: string) returns (w': World)
    requires ValidRoot(root)
    ensures Reached(tpm, points, pcr, w') && Free(w') && w'.late == [PolicyCall(dir, PcrPolicy(tpm, root))]
  {
    assert Exec(tpm, points, Booted(pcr), []) == Booted(pcr);
    var w := Measuring(tpm, points, pcr, Booted(pcr), 1, Provision(dir, root, "lost"));
    Reach(tpm, points, pcr, w, Kill(1));
    w' := Next(tpm, points, w, Kill(1));
  }

  /** A late policy digest during a provision: the secret is sealed to the other root. */
  lemma LateDigestSealsToTheWrongRoot(tpm: Tpm, points: set<Point>, pcr: string, root: string, other: string)
    requires ValidRoot(root) && ValidRoot(other) && PcrPolicy(tpm, root) != PcrPolicy(tpm, other)
    requires PolicyWritten in points
    ensures GoesWrong(tpm, points, pcr)
  {
    var w := LosingDigest(tpm, points, pcr, "seal", other);
    var op := Provision("seal", root, "secret");
    w := Measuring(tpm, points, pcr, w, 0, op);
    w := Writing(tpm, points, pcr, w, 0, op);
    w := Landing(tpm, points, pcr, w, 0, Proc(op, PolicyWritten, Absent, ""),
                 PolicyCall("seal", PcrPolicy(tpm, other)));
    w := Creating(tpm, points, pcr, w, 0, op);
    ReleasedUnder(tpm, points, pcr, w, "seal", root, other, "secret");
  }

  lemma ReleasedUnder(tpm: Tpm, points: set<Point>, pcr: string, w: World, dir: string, root: string, other: string,
                      secret: string)
    requires Reached(tpm, points, pcr, w) && Free(w)
    requires ValidRoot(root) && ValidRoot(other) && PcrPolicy(tpm, root) != PcrPolicy(tpm, other) && secret != ""
    requires DirOf(w.now, dir).blob == Sealed(PcrPolicy(tpm, other), secret)
    requires LastSeal(w.now.history, dir) == Some((root, secret))
    ensures GoesWrong(tpm, points, pcr)
  {
    var op, blob := Unseal(dir, other), Sealed(PcrPolicy(tpm, other), secret);
    var v := Measuring(tpm, points, pcr, w, 0, op);
    v := Loading(tpm, points, pcr, v, 0, op);
    v := Authorising(tpm, points, pcr, v, 0, op, blob);
    Answering(tpm, points, pcr, v, 0, op, blob, PcrPolicy(tpm, other));
  }

  lemma WindowGoesWrong(tpm: Tpm, points: set<Point>, pcr: string, r1: string, r2: string)
    requires ValidRoot(r1) && ValidRoot(r2) && PcrPolicy(tpm, r1) != PcrPolicy(tpm, r2)
    requires tpm.policy(ZEROS) != PcrPolicy(tpm, r1)
    requires !(points !! WINDOW)
    ensures GoesWrong(tpm, points, pcr)
  {
    if Measured in points || Loaded in points {
      LateResetRefuses(tpm, points, pcr, r1);
    } else if PolicyWritten in points {
      LateDigestSealsToTheWrongRoot(tpm, points, pcr, r1, r2);
    } else {
      var p :| p in points && p in WINDOW;
      assert p == InSession;
      LateObjectIsMissed(tpm, points, pcr, r1);
    }
  }

  /** Under one lock file, tools that outlive their process leave every run justified exactly
      when their effects miss the window: from the read-back of the PCR until a provision has
      its object, or an unseal its answer. Before the read-back it catches them. */
  lemma SafeIffLateEffectsMissTheWindow(tpm: Tpm, points: set<Point>, pcr: string, r1: string, r2: string)
    requires OneLock(tpm) && ValidRoot(r1) && ValidRoot(r2) && PcrPolicy(tpm, r1) != PcrPolicy(tpm, r2)
    requires tpm.policy(ZEROS) != PcrPolicy(tpm, r1)
    ensures points !! WINDOW <==> !GoesWrong(tpm, points, pcr)
  {
    if points !! WINDOW {
      forall run ensures HistoryJustified(tpm, Exec(tpm, points, Booted(pcr), run).now.history) {
        RunKeepsInv(tpm, points, pcr, run);
      }
    } else {
      WindowGoesWrong(tpm, points, pcr, r1, r2);
    }
  }
}
