/** pkg/sanitizer, gate M3: the patched build must not report a finding at a site the case
    does not declare. */
module Sanitizer {
  import opened Text
  import opened Corpus
  import opened Challenge
  import opened StageRuns
  import Gate
  import Revert

  const NAME := "sanitizer-gated-reachability"

  function Program(job: Job): seq<Kind> {
    var run := DoRun(job.blob, job.harness, job.pov);
    [DoReset, DoBuild, run, DoReset, DoApply(job.patch), DoBuild, run]
  }

  /** What the patched tree's run says here. */
  function Reachability(run: PoVRun): (Gate.Outcome, string) {
    if !run.sanitizerFired then (Gate.Passed, "")
    else
      match run.site
      case Some(Same) => (Gate.Passed, "")
      case Some(Differ) => (Gate.Failed, NEW_SANITIZER_FINDING)
      case _ => (Gate.Failed, UNADJUDICATED)
  }

  function Settles(i: nat, e: Event): Option<(Gate.Outcome, string)> {
    if i == 4 then (if Took(e) then None else Some((Gate.Failed, PATCH_DOES_NOT_APPLY)))
    else if i == 6 && e.Ran? && e.run.Some? then Some(Reachability(e.run.value))
    else None
  }

  function M3(job: Job): Plan { Plan(NAME, Program(job), Settles) }

  /** A refusal to grade is an error before anything is done. */
  ghost predicate Told(recovers: bool, machine: Machine, job: Job, steps: seq<Event>,
      r: Result<Gate.StageResult, string>) {
    if !recovers then steps == [] && r.Err? else Answered(machine, M3(job), steps, r)
  }

  /** Stage.Run. The unpatched run is made for its own sake: it must have executed. */
  method Run(target: Checkout, recovers: bool, job: Job)
    returns (r: Result<Gate.StageResult, string>, ghost steps: seq<Event>)
    modifies target
    ensures Chained(old(target.world), steps, target.world)
    ensures Told(recovers, target.machine, job, steps, r)
  {
    if !recovers {
      return Err("refusing to grade on a build that may halt on the first sanitizer error"), [];
    }
    ghost var start := target.world;
    var failure, before;
    ghost var e;
    failure, before, steps, e := RunUnpatched(target, job, M3(job));
    if failure.Some? {
      return Err(failure.value), steps;
    }
    Continue(target.machine, M3(job), start, steps, e);
    ghost var measured := steps + [e];
    r, steps := RunPatched(target, job, start, measured);
  }

  method RunPatched(target: Checkout, job: Job, ghost start: World, ghost measured: seq<Event>)
    returns (r: Result<Gate.StageResult, string>, ghost steps: seq<Event>)
    requires Underway(target.machine, M3(job), measured) && |measured| == 3 && Chained(start, measured, target.world)
    modifies target
    ensures Chained(start, steps, target.world)
    ensures Answered(target.machine, M3(job), steps, r)
  {
    ghost var m, plan := target.machine, M3(job);
    steps := measured;
    var ok, e := target.ResetToPin();
    if !ok {
      r := Err("reset before applying");
      Conclude(m, plan, start, steps, e, r);
      steps := steps + [e];
      return;
    }
    Continue(m, plan, start, steps, e);
    ghost var clean := steps + [e];
    r, steps := ApplyAndRun(target, job, start, clean);
  }

  method ApplyAndRun(target: Checkout, job: Job, ghost start: World, ghost clean: seq<Event>)
    returns (r: Result<Gate.StageResult, string>, ghost steps: seq<Event>)
    requires Underway(target.machine, M3(job), clean) && |clean| == 4 && Chained(start, clean, target.world)
    modifies target
    ensures Chained(start, steps, target.world)
    ensures Answered(target.machine, M3(job), steps, r)
  {
    var ok, e := target.Apply(job.patch);
    if !ok {
      var evidence := ["the candidate does not apply at the pin"];
      Speaks(evidence);
      r := Ok(Gate.StageResult(NAME, Gate.Failed, PATCH_DOES_NOT_APPLY, evidence));
      Conclude(target.machine, M3(job), start, clean, e, r);
      steps := clean + [e];
      return;
    }
    Continue(target.machine, M3(job), start, clean, e);
    ghost var applied := clean + [e];
    r, steps := Measure(target, job, start, applied);
  }

  /** Build what the patch left, and run it. */
  method Measure(target: Checkout, job: Job, ghost start: World, ghost applied: seq<Event>)
    returns (r: Result<Gate.StageResult, string>, ghost steps: seq<Event>)
    requires Underway(target.machine, M3(job), applied) && |applied| == 5 && Chained(start, applied, target.world)
    modifies target
    ensures Chained(start, steps, target.world)
    ensures Answered(target.machine, M3(job), steps, r)
  {
    ghost var m, plan := target.machine, M3(job);
    steps := applied;
    var ok, e := target.Build();
    if !ok {
      r := Err("build the patched tree");
      Conclude(m, plan, start, steps, e, r);
      steps := steps + [e];
      return;
    }
    Continue(m, plan, start, steps, e);
    ghost var built := steps + [e];
    var failure, after;
    failure, after, steps, e := RunBuilt(target, job, plan, start, built);
    if failure.Some? {
      return Err(failure.value), steps;
    }
    var judged := Judge(after.value);
    r := Ok(judged);
    Conclude(m, plan, start, steps, e, r);
    steps := steps + [e];
  }

  method Judge(after: PoVRun) returns (r: Gate.StageResult)
    ensures Gate.WellFormed(r) && r.stage == NAME && (r.outcome, r.reason) == Reachability(after)
  {
    var evidence := ["patched: " + VerdictText(after)] + after.evidence;
    Speaks(evidence);
    if !after.sanitizerFired {
      return Gate.StageResult(NAME, Gate.Passed, "", evidence);
    }
    match after.site {
      case Some(Same) => return Gate.StageResult(NAME, Gate.Passed, "", evidence);
      case Some(Differ) => return Gate.StageResult(NAME, Gate.Failed, NEW_SANITIZER_FINDING, evidence);
      case _ => return Gate.StageResult(NAME, Gate.Failed, UNADJUDICATED, evidence);
    }
  }

  /* ---------- what an answer is worth ---------- */

  /** The operations of M3 on a job, in order, as far as they came: the tree is reset again
      before the patch is applied. */
  ghost predicate InOrder(steps: seq<Event>, job: Job) {
    var run := DoRun(job.blob, job.harness, job.pov);
    && |steps| <= 7
    && forall i :: 0 <= i < |steps| ==>
         KindOf(steps[i]) == [DoReset, DoBuild, run, DoReset, DoApply(job.patch), DoBuild, run][i]
  }

  lemma KindsInOrder(steps: seq<Event>, job: Job)
    requires InOrder(steps, job)
    ensures |steps| > 4 ==> steps[1].Built? && steps[2].Ran? && steps[3].Reset? && steps[4].Applied?
    ensures |steps| > 6 ==> steps[5].Built? && steps[6].Ran?
  {
  }

  /** An error is a refusal to grade, or a reset, build or run that measured nothing; never more. */
  lemma ErrorsAreFaults(recovers: bool, machine: Machine, job: Job, steps: seq<Event>,
      r: Result<Gate.StageResult, string>)
    requires Told(recovers, machine, job, steps, r)
    ensures InOrder(steps, job)
    ensures r.Err? <==> !recovers || !AllMeasured(machine, steps, job)
  {
    if recovers {
      StepsWere(machine, M3(job), steps, r);
      ClearIff(machine, M3(job), job, steps, r);
    }
  }

  /** When the stage passes and when it fails, and for which reason; it is never undecided. */
  lemma PassIff(recovers: bool, machine: Machine, job: Job, steps: seq<Event>, r: Result<Gate.StageResult, string>)
    requires Told(recovers, machine, job, steps, r)
    ensures r.Ok? && r.value.outcome.Passed? <==>
            && recovers && AllMeasured(machine, steps, job) && |steps| == 7
            && (Fires(steps[6], job) ==> SiteOf(steps[6], job).Same?)
    ensures r.Ok? && r.value.outcome.Failed? <==>
            && recovers && AllMeasured(machine, steps, job)
            && (|steps| == 5 || (|steps| == 7 && Fires(steps[6], job) && !SiteOf(steps[6], job).Same?))
    ensures r.Ok? ==> r.value.stage == "sanitizer-gated-reachability" && Gate.WellFormed(r.value)
    ensures r.Ok? ==> |steps| in {5, 7} && steps[4].Applied? && (|steps| == 7 <==> steps[4].ok)
    ensures r.Ok? ==>
              r.value.reason == if |steps| == 5 then "patch-does-not-apply"
                                else if !Fires(steps[6], job) then ""
                                else match SiteOf(steps[6], job)
                                     case Same => ""
                                     case Differ => "new-sanitizer-finding"
                                     case Undetermined => "unadjudicated-behaviour-change"
  {
    ErrorsAreFaults(recovers, machine, job, steps, r);
    if recovers {
      StepsWere(machine, M3(job), steps, r);
      ClearIff(machine, M3(job), job, steps, r);
      KindsInOrder(steps, job);
    }
  }

  /** Behind a pass stand two builds that recorded exit code 0 and two reports that say the
      harness ran, each in a directory that its own invocation made. */
  lemma PassRestsOnItsOwnOutput(recovers: bool, machine: Machine, job: Job, steps: seq<Event>,
                                r: Result<Gate.StageResult, string>)
    requires Told(recovers, machine, job, steps, r) && r.Ok? && r.value.outcome.Passed?
    ensures |steps| == 7 && RecordedSuccess(steps[1]) && RecordedSuccess(steps[5])
    ensures ReportOf(steps[2], job).Some? && Contains(ReportOf(steps[2], job).value, "Running: ")
    ensures ReportOf(steps[6], job).Some? && Contains(ReportOf(steps[6], job).value, "Running: ")
  {
    PassIff(recovers, machine, job, steps, r);
    ErrorsAreFaults(recovers, machine, job, steps, r);
    KindsInOrder(steps, job);
    assert forall i :: i in {1, 2, 5, 6} ==> Measured(machine, steps[i], job);
  }

  /** The two stages on the same patched run: M3 passes what M1 credits and, besides, only
      the original finding; a new finding is named alike by both; and where the site cannot
      be told, M1 stays undecided while M3 fails. */
  lemma StagesAgree(run: PoVRun)
    requires run.site.Some? <==> run.sanitizerFired
    ensures Reachability(run).0.Passed? <==>
            Revert.Attribution(run).0.Passed? || Revert.Attribution(run).1 == REVERT_ATTRIBUTE_FAIL
    ensures Reachability(run).1 == NEW_SANITIZER_FINDING <==> Revert.Attribution(run).1 == NEW_SANITIZER_FINDING
    ensures Reachability(run).1 == UNADJUDICATED <==> Revert.Attribution(run).0.Undecided?
  {
  }
}
