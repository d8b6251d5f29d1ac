/** What the stages that drive a checkout have in common: an order of operations, and after
    each of them the question whether the matter is settled. */
module StageRuns {
  import opened Text
  import opened Challenge
  import opened Corpus
  import Gate

  /** What a stage is asked to do. */
  datatype Job = Job(blob: string, patch: string, harness: string, pov: PoV)

  /** A stage on a job: its name, its operations in order, and the outcome and reason, if
      any, that it settles on when the operation with this number went so. */
  datatype Plan = Plan(name: string, program: seq<Kind>, settles: (nat, Event) -> Option<(Gate.Outcome, string)>)

  predicate Took(e: Event) { e.Applied? && e.ok }

  /** What the plan settles on; the reset and the build that come first settle nothing. */
  function Settled(plan: Plan, i: nat, e: Event): Option<(Gate.Outcome, string)> {
    if i < 2 then None else plan.settles(i, e)
  }

  /** The operation was measured and settled nothing. */
  ghost predicate WentOn(machine: Machine, plan: Plan, i: nat, e: Event) {
    Happened(machine, e) && !Faulty(e) && Settled(plan, i, e) == None
  }

  /** The stage has come this far. */
  ghost predicate Underway(machine: Machine, plan: Plan, steps: seq<Event>) {
    && |steps| <= |plan.program|
    && forall i :: 0 <= i < |steps| ==> KindOf(steps[i]) == plan.program[i] && WentOn(machine, plan, i, steps[i])
  }

  /** The stage ends with this operation and this answer: an error if it was not measured,
      and otherwise what it settles. */
  ghost predicate Ends(machine: Machine, plan: Plan, i: nat, e: Event, r: Result<Gate.StageResult, string>) {
    && i < |plan.program| && KindOf(e) == plan.program[i] && Happened(machine, e)
    && match r
       case Err(_) => Faulty(e)
       case Ok(res) =>
         !Faulty(e) && Gate.WellFormed(res) && res.stage == plan.name &&
             Settled(plan, i, e) == Some((res.outcome, res.reason))
  }

  /** The events account for the answer. */
  ghost predicate Answered(machine: Machine, plan: Plan, steps: seq<Event>, r: Result<Gate.StageResult, string>) {
    && steps != []
    && Underway(machine, plan, steps[..|steps| - 1])
    && Ends(machine, plan, |steps| - 1, steps[|steps| - 1], r)
  }

  lemma Continue(machine: Machine, plan: Plan, start: World, steps: seq<Event>, e: Event)
    requires Underway(machine, plan, steps) && Chained(start, steps, e.before)
    requires |steps| < |plan.program| && KindOf(e) == plan.program[|steps|] && WentOn(machine, plan, |steps|, e)
    ensures Underway(machine, plan, steps + [e]) && Chained(start, steps + [e], e.after)
  {
    ChainGrows(start, steps, e);
  }

  lemma Conclude(machine: Machine, plan: Plan, start: World, steps: seq<Event>, e: Event,
                 r: Result<Gate.StageResult, string>)
    requires Underway(machine, plan, steps) && Chained(start, steps, e.before)
    requires Ends(machine, plan, |steps|, e, r)
    ensures Answered(machine, plan, steps + [e], r) && Chained(start, steps + [e], e.after)
  {
    assert (steps + [e])[..|steps|] == steps;
    ChainGrows(start, steps, e);
  }

  lemma StepsWere(machine: Machine, plan: Plan, steps: seq<Event>, r: Result<Gate.StageResult, string>)
    requires Answered(machine, plan, steps, r)
    ensures |steps| <= |plan.program|
    ensures forall i :: 0 <= i < |steps| ==> Happened(machine, steps[i]) && KindOf(steps[i]) == plan.program[i]
    ensures forall i :: 0 <= i < |steps| - 1 ==> WentOn(machine, plan, i, steps[i])
  {
    var before := steps[..|steps| - 1];
    assert forall i :: 0 <= i < |before| ==> before[i] == steps[i];
  }

  /** A failed reset, build or run, or a harness that never executed, is an error, and an
      error is nothing else: none of them becomes a verdict on the patch. */
  lemma NothingMeasuredIsNoVerdict(machine: Machine, plan: Plan, steps: seq<Event>, r: Result<Gate.StageResult, string>)
    requires Answered(machine, plan, steps, r)
    ensures r.Err? <==> exists i :: 0 <= i < |steps| && Faulty(steps[i])
  {
    StepsWere(machine, plan, steps, r);
    if r.Err? {
      assert Faulty(steps[|steps| - 1]);
    }
  }

  /** The events determine the verdict. */
  lemma EventsDecide(machine: Machine, plan: Plan, steps: seq<Event>,
                     a: Result<Gate.StageResult, string>, b: Result<Gate.StageResult, string>)
    requires Answered(machine, plan, steps, a) && Answered(machine, plan, steps, b)
    ensures a.Ok? <==> b.Ok?
    ensures a.Ok? ==> a.value.outcome == b.value.outcome && a.value.reason == b.value.reason
  {
  }

  ghost predicate Clear(steps: seq<Event>) { forall i :: 0 <= i < |steps| ==> !Faulty(steps[i]) }

  /* ---------- evidence ---------- */

  function VerdictText(r: PoVRun): string {
    if r.sanitizerFired then "harness ran, sanitizer fired" else "harness ran, sanitizer silent"
  }

  predicate Spoken(evidence: seq<string>) { evidence != [] && evidence[0] != "" && !IsSpace(evidence[0][0]) }

  lemma Speaks(evidence: seq<string>)
    requires Spoken(evidence)
    ensures Gate.SaysSomething(evidence)
  {
    assert !Blank(evidence[0]);
  }

  /* ---------- what was recorded ---------- */

  predicate EndsWith(s: string, suffix: string) { |s| >= |suffix| && s[|s| - |suffix|..] == suffix }

  /** The directory has this ending, was made by the invocation, and is the newest such. */
  ghost predicate ReadFromItsOwn(before: Outputs, after: Outputs, dir: string, ending: string) {
    && MadeWith(before, after, dir, ending)
    && forall q :: MadeWith(before, after, q, ending) ==> after[q].modified.value <= after[dir].modified.value
  }

  predicate MadeWith(before: Outputs, after: Outputs, dir: string, ending: string) {
    dir in after && dir !in before && EndsWith(dir, ending) && after[dir].modified.Some?
  }

  /** What a run left in the file its case names, or in stderr.log if it names none. */
  ghost function ReportOf(e: Event, job: Job): Option<string> {
    var name := if job.pov.signal == "" then "stderr.log" else job.pov.signal;
    if e.Ran? && e.dir.Some? && ReadFromItsOwn(e.before.outputs, e.after.outputs, e.dir.value, "--run_pov")
       && name in e.after.outputs[e.dir.value].files
    then Some(e.after.outputs[e.dir.value].files[name])
    else None
  }

  ghost predicate Executed(e: Event, job: Job) {
    ReportOf(e, job).Some? && Contains(ReportOf(e, job).value, "Running: ")
  }

  ghost predicate Fires(e: Event, job: Job) {
    ReportOf(e, job).Some? && Contains(ReportOf(e, job).value, job.pov.expectedSanitizer)
  }

  /** Where it fired. */
  ghost function SiteOf(e: Event, job: Job): SiteMatch
    requires Fires(e, job)
  {
    job.pov.matchSite(ReportOf(e, job).value)
  }

  /** The build recorded that it succeeded. */
  ghost predicate RecordedSuccess(e: Event) {
    && e.Built? && e.dir.Some? && ReadFromItsOwn(e.before.outputs, e.after.outputs, e.dir.value, "--build")
    && var files := e.after.outputs[e.dir.value].files;
       "exitcode" in files && TrimSpace(files["exitcode"]) == "0"
  }

  /** From this world the tree was reset and cleaned, and then seen to be clean. */
  predicate SeenClean(machine: Machine, w: World) {
    && machine(GitReset, w).1.ok
    && var w1 := machine(GitReset, w).0;
    && machine(GitClean, w1).1.ok
    && var status := machine(GitStatus, machine(GitClean, w1).0).1;
       status.ok && TrimSpace(status.text) == ""
  }

  /** Something was measured: the tree was clean, the build recorded success, the harness ran. */
  ghost predicate Measured(machine: Machine, e: Event, job: Job) {
    match e
    case Reset(_, _, before, _) => SeenClean(machine, before)
    case Applied(_, _, _, _) => true
    case Built(_, _, _, before, _) => machine(ShBuild, before).1.ok && RecordedSuccess(e)
    case Ran(_, _, _, _, _, _, _) => Executed(e, job)
  }

  lemma NewestIsItsOwn(before: Outputs, after: Outputs, kind: string, dir: string)
    requires ReadsNewest(before, after, kind, Some(dir))
    ensures ReadFromItsOwn(before, after, dir, "--" + kind)
  {
    forall q ensures MadeWith(before, after, q, "--" + kind) <==> q in Fresh(before, after, kind) {
    }
  }

  lemma BuildMeasuredIff(machine: Machine, e: Event)
    requires Happened(machine, e) && e.Built?
    ensures e.ok <==> machine(ShBuild, e.before).1.ok && RecordedSuccess(e)
  {
    if e.dir.Some? {
      NewestIsItsOwn(e.before.outputs, e.after.outputs, BUILD, e.dir.value);
      assert "--" + BUILD == "--build";
    }
  }

  lemma RunMeasuredIff(machine: Machine, e: Event, job: Job)
    requires Happened(machine, e) && KindOf(e) == DoRun(job.blob, job.harness, job.pov)
    ensures e.run.Some? <==> ReportOf(e, job).Some?
    ensures e.run.Some? ==>
              && (e.run.value.harnessRan <==> Executed(e, job))
              && (e.run.value.sanitizerFired <==> Fires(e, job))
              && e.run.value.site == if Fires(e, job) then Some(SiteOf(e, job)) else None
  {
    if e.dir.Some? {
      NewestIsItsOwn(e.before.outputs, e.after.outputs, RUN_POV, e.dir.value);
      assert "--" + RUN_POV == "--run_pov";
    }
  }

  lemma MeasuredIff(machine: Machine, e: Event, job: Job)
    requires Happened(machine, e) && (e.Ran? ==> KindOf(e) == DoRun(job.blob, job.harness, job.pov))
    ensures !Faulty(e) <==> Measured(machine, e, job)
    ensures e.Ran? && !Faulty(e) ==>
              && (e.run.value.sanitizerFired <==> Fires(e, job))
              && e.run.value.site == if Fires(e, job) then Some(SiteOf(e, job)) else None
  {
    match e {
      case Built(_, _, _, _, _) => BuildMeasuredIff(machine, e);
      case Ran(_, _, _, _, _, _, _) => RunMeasuredIff(machine, e, job);
      case _ =>
    }
  }

  /** The runs of a plan are runs of this job. */
  ghost predicate RunsJob(plan: Plan, job: Job) {
    forall i :: 0 <= i < |plan.program| && plan.program[i].DoRun? ==>
      plan.program[i] == DoRun(job.blob, job.harness, job.pov)
  }

  ghost predicate AllMeasured(machine: Machine, steps: seq<Event>, job: Job) {
    forall i :: 0 <= i < |steps| ==> Measured(machine, steps[i], job)
  }

  lemma ClearIff(machine: Machine, plan: Plan, job: Job, steps: seq<Event>, r: Result<Gate.StageResult, string>)
    requires Answered(machine, plan, steps, r) && RunsJob(plan, job)
    ensures Clear(steps) <==> AllMeasured(machine, steps, job)
    ensures r.Ok? <==> AllMeasured(machine, steps, job)
    ensures forall i :: 0 <= i < |steps| && steps[i].Ran? && !Faulty(steps[i]) ==>
              && (steps[i].run.value.sanitizerFired <==> Fires(steps[i], job))
              && steps[i].run.value.site == if Fires(steps[i], job) then Some(SiteOf(steps[i], job)) else None
  {
    StepsWere(machine, plan, steps, r);
    NothingMeasuredIsNoVerdict(machine, plan, steps, r);
    forall i | 0 <= i < |steps|
      ensures !Faulty(steps[i]) <==> Measured(machine, steps[i], job)
      ensures steps[i].Ran? && !Faulty(steps[i]) ==>
                && (steps[i].run.value.sanitizerFired <==> Fires(steps[i], job))
                && steps[i].run.value.site == if Fires(steps[i], job) then Some(SiteOf(steps[i], job)) else None
    {
      MeasuredIff(machine, steps[i], job);
    }
  }

  /** A report without the harness's line never becomes a verdict, and neither does a build
      without a recorded success, nor a tree that was not seen to be clean. */
  lemma NoVerdictUnmeasured(machine: Machine, plan: Plan, job: Job, steps: seq<Event>,
                            r: Result<Gate.StageResult, string>, i: nat)
    requires Answered(machine, plan, steps, r) && RunsJob(plan, job) && i < |steps|
    requires !Measured(machine, steps[i], job)
    ensures r.Err? && i == |steps| - 1
  {
    ClearIff(machine, plan, job, steps, r);
    StepsWere(machine, plan, steps, r);
    MeasuredIff(machine, steps[i], job);
  }

  /** The worlds an operation began in and left, and what it was told. */
  ghost predicate Commanded(machine: Machine, e: Event) {
    match e
    case Reset(_, _, before, after) =>
      var w1 := machine(GitReset, before).0;
      var w2 := machine(GitClean, w1).0;
      after == if !machine(GitReset, before).1.ok then w1 else if !machine(GitClean, w1).1.ok then w2
               else machine(GitStatus, w2).0
    case Applied(ok, patch, before, after) =>
      after == machine(GitApply(patch), before).0 && (ok <==> machine(GitApply(patch), before).1.ok)
    case Built(_, _, _, before, after) => after == machine(ShBuild, before).0
    case Ran(_, blob, harness, _, _, before, after) => after == machine(ShPoV(blob, harness), before).0
  }

  /** Each operation begins in the world the one before it left, the first in `w`, and the
      last leaves `w'`. */
  ghost predicate OneAfterTheOther(w: World, steps: seq<Event>, w': World) {
    && steps != [] && steps[0].before == w && steps[|steps| - 1].after == w'
    && forall i :: 0 < i < |steps| ==> steps[i].before == steps[i - 1].after
  }

  lemma {:induction false} ChainedIs(w: World, steps: seq<Event>, w': World)
    requires steps != []
    ensures Chained(w, steps, w') <==> OneAfterTheOther(w, steps, w')
  {
    var init := steps[..|steps| - 1];
    if init != [] {
      ChainedIs(w, init, steps[|steps| - 1].before);
      assert forall i :: 0 <= i < |init| ==> init[i] == steps[i];
    }
  }

  /** A run of a stage is the machine's own run of the commands. */
  lemma RunIsCommanded(machine: Machine, plan: Plan, w: World, steps: seq<Event>, w': World,
                       r: Result<Gate.StageResult, string>)
    requires Answered(machine, plan, steps, r) && Chained(w, steps, w')
    ensures OneAfterTheOther(w, steps, w')
    ensures forall i :: 0 <= i < |steps| ==> Commanded(machine, steps[i])
    ensures r.Ok? ==> r.value.stage == plan.name
  {
    ChainedIs(w, steps, w');
    StepsWere(machine, plan, steps, r);
  }

  /* ---------- the tree as submitted ---------- */

  ghost predicate BeginsUnpatched(plan: Plan, job: Job) {
    && |plan.program| >= 3 && plan.program[0] == DoReset && plan.program[1] == DoBuild
    && plan.program[2] == DoRun(job.blob, job.harness, job.pov)
  }

  /** Reset, build and run, as both stages begin. Without an error, the run is `run`, and
      the event of it is still to be judged. */
  method RunUnpatched(target: Checkout, job: Job, ghost plan: Plan)
    returns (failure: Option<string>, run: Option<PoVRun>, ghost steps: seq<Event>, ghost e: Event)
    requires BeginsUnpatched(plan, job)
    modifies target
    ensures failure.Some? ==>
              Answered(target.machine, plan, steps, Err(failure.value)) &&
                  Chained(old(target.world), steps, target.world)
    ensures failure.None? ==>
              && Underway(target.machine, plan, steps) && |steps| == 2 && Chained(old(target.world), steps, e.before)
              && e.Ran? && e.run == run && e.after == target.world && KindOf(e) == plan.program[2]
              && Happened(target.machine, e) && !Faulty(e)
  {
    ghost var m, start := target.machine, target.world;
    steps, run := [], None;
    var ok;
    ok, e := target.ResetToPin();
    if !ok {
      failure := Some("reset to pin");
      Conclude(m, plan, start, steps, e, Err(failure.value));
      steps := steps + [e];
      return;
    }
    Continue(m, plan, start, steps, e);
    ghost var clean := steps + [e];
    failure, run, steps, e := BuildAndRun(target, job, plan, start, clean);
  }

  method BuildAndRun(target: Checkout, job: Job, ghost plan: Plan, ghost start: World, ghost clean: seq<Event>)
    returns (failure: Option<string>, run: Option<PoVRun>, ghost steps: seq<Event>, ghost e: Event)
    requires BeginsUnpatched(plan, job) && Underway(target.machine, plan, clean) && |clean| == 1
    requires Chained(start, clean, target.world)
    modifies target
    ensures failure.Some? ==>
              Answered(target.machine, plan, steps, Err(failure.value)) && Chained(start, steps, target.world)
    ensures failure.None? ==>
              && Underway(target.machine, plan, steps) && |steps| == 2 && Chained(start, steps, e.before)
              && e.Ran? && e.run == run && e.after == target.world && KindOf(e) == plan.program[2]
              && Happened(target.machine, e) && !Faulty(e)
  {
    run := None;
    var ok;
    ok, e := target.Build();
    if !ok {
      failure := Some("build the unpatched tree");
      Conclude(target.machine, plan, start, clean, e, Err(failure.value));
      steps := clean + [e];
      return;
    }
    Continue(target.machine, plan, start, clean, e);
    ghost var built := clean + [e];
    failure, run, steps, e := RunBuilt(target, job, plan, start, built);
  }

  method RunBuilt(target: Checkout, job: Job, ghost plan: Plan, ghost start: World, ghost built: seq<Event>)
    returns (failure: Option<string>, run: Option<PoVRun>, ghost steps: seq<Event>, ghost e: Event)
    requires Underway(target.machine, plan, built) && Chained(start, built, target.world)
    requires |built| < |plan.program| && plan.program[|built|] == DoRun(job.blob, job.harness, job.pov)
    modifies target
    ensures failure.Some? ==>
              Answered(target.machine, plan, steps, Err(failure.value)) && Chained(start, steps, target.world)
    ensures failure.None? ==>
              && steps == built && Chained(start, built, e.before)
              && e.Ran? && e.run == run && e.after == target.world && KindOf(e) == plan.program[|built|]
              && Happened(target.machine, e) && !Faulty(e)
  {
    run, e := target.RunPoV(job.blob, job.harness, job.pov);
    steps := built;
    if run.None? {
      failure := Some("the pov could not be run");
    } else if !run.value.harnessRan {
      failure := Some("the pov harness did not execute, so nothing was measured");
    } else {
      failure := None;
      return;
    }
    Conclude(target.machine, plan, start, built, e, Err(failure.value));
    steps := built + [e];
  }
}
