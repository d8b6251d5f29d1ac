/** pkg/revert, gate M1: a patch is credited only if the proof of vulnerability fires
    without it and stops with it. */
module Revert {
  import opened Text
  import opened Corpus
  import opened Challenge
  import opened StageRuns
  import Gate

  const NAME := "revert-to-attribute"

  /** The operations in order; a run may stop early. */
  function Program(job: Job): seq<Kind> {
    var run := DoRun(job.blob, job.harness, job.pov);
    [DoReset, DoBuild, run, DoApply(job.patch), DoBuild, run]
  }

  /** The unpatched tree shows the declared vulnerability, as far as can be told. */
  predicate Shown(e: Event) { e.Ran? && e.run.Some? && e.run.value.sanitizerFired && e.run.value.site != Some(Differ) }

  /** What the patched tree's run says about the patch. */
  function Attribution(run: PoVRun): (Gate.Outcome, string) {
    if !run.sanitizerFired then (Gate.Passed, "")
    else if run.site == Some(Differ) then (Gate.Failed, NEW_SANITIZER_FINDING)
    else if run.site == Some(Undetermined) then (Gate.Undecided, POV_SITE_UNDETERMINED)
    else (Gate.Failed, REVERT_ATTRIBUTE_FAIL)
  }

  /** The two questions: the unpatched run is about the case, what follows is about the patch. */
  function Settles(i: nat, e: Event): Option<(Gate.Outcome, string)> {
    if i == 2 then (if Shown(e) then None else Some((Gate.Undecided, POV_NOT_REPRODUCED)))
    else if i == 3 then (if Took(e) then None else Some((Gate.Failed, PATCH_DOES_NOT_APPLY)))
    else if i == 5 && e.Ran? && e.run.Some? then Some(Attribution(e.run.value))
    else None
  }

  function M1(job: Job): Plan { Plan(NAME, Program(job), Settles) }

  /** What the unpatched run settles, and the evidence so far. */
  method JudgeCase(before: PoVRun) returns (r: Option<Gate.StageResult>, evidence: seq<string>)
    ensures Spoken(evidence)
    ensures r.None? <==> before.sanitizerFired && before.site != Some(Differ)
    ensures r.Some? ==>
              Gate.WellFormed(r.value) && r.value ==
                  Gate.StageResult(NAME, Gate.Undecided, POV_NOT_REPRODUCED, evidence)
  {
    evidence := ["unpatched tree at the pin: " + VerdictText(before)] + before.evidence;
    Speaks(evidence);
    if !before.sanitizerFired {
      return Some(Gate.StageResult(NAME, Gate.Undecided, POV_NOT_REPRODUCED, evidence)), evidence;
    }
    if before.site == Some(Differ) {
      return Some(Gate.StageResult(NAME, Gate.Undecided, POV_NOT_REPRODUCED, evidence)), evidence;
    }
    r := None;
  }

  /** What the patched run settles. */
  method JudgePatch(after: PoVRun, before: seq<string>) returns (r: Gate.StageResult)
    requires Spoken(before)
    ensures Gate.WellFormed(r) && r.stage == "revert-to-attribute" && (r.outcome, r.reason) == Attribution(after)
  {
    var evidence := before + ["patched tree: " + VerdictText(after)] + after.evidence;
    assert evidence[0] == before[0];
    Speaks(evidence);
    if after.sanitizerFired {
      match after.site {
        case Some(Differ) => return Gate.StageResult(NAME, Gate.Failed, NEW_SANITIZER_FINDING, evidence);
        case Some(Undetermined) => return Gate.StageResult(NAME, Gate.Undecided, POV_SITE_UNDETERMINED, evidence);
        case _ => return Gate.StageResult(NAME, Gate.Failed, REVERT_ATTRIBUTE_FAIL, evidence);
      }
    }
    r := Gate.StageResult(NAME, Gate.Passed, "", evidence);
  }

  /** Stage.Run. There are events, caused one after the other by the checkout's machine
      between the world before and the world after, that account for the answer. */
  method Run(target: Checkout, job: Job) returns (r: Result<Gate.StageResult, string>, ghost steps: seq<Event>)
    modifies target
    ensures Chained(old(target.world), steps, target.world)
    ensures Answered(target.machine, M1(job), steps, r)
  {
    ghost var m, plan, start := target.machine, M1(job), target.world;
    var failure, before;
    ghost var e;
    failure, before, steps, e := RunUnpatched(target, job, plan);
    if failure.Some? {
      return Err(failure.value), steps;
    }
    var judged, evidence := JudgeCase(before.value);
    if judged.Some? {
      r := Ok(judged.value);
      Conclude(m, plan, start, steps, e, r);
      steps := steps + [e];
      return;
    }
    Continue(m, plan, start, steps, e);
    ghost var asked := steps + [e];
    r, steps := AskPatch(target, job, evidence, start, asked);
  }

  /** The second question: does the patch stop what was just watched? A patch that does
      not apply is a finding about the patch, because the tree was verified clean. */
  method AskPatch(target: Checkout, job: Job, evidence: seq<string>, ghost start: World, ghost asked: seq<Event>)
    returns (r: Result<Gate.StageResult, string>, ghost steps: seq<Event>)
    requires Underway(target.machine, M1(job), asked) && |asked| == 3 && Spoken(evidence)
    requires Chained(start, asked, target.world)
    modifies target
    ensures Chained(start, steps, target.world)
    ensures Answered(target.machine, M1(job), steps, r)
  {
    ghost var m, plan := target.machine, M1(job);
    steps := asked;
    var ok, e := target.Apply(job.patch);
    if !ok {
      Speaks(evidence);
      r := Ok(Gate.StageResult(NAME, Gate.Failed, PATCH_DOES_NOT_APPLY, evidence));
      Conclude(m, plan, start, steps, e, r);
      steps := steps + [e];
      return;
    }
    Continue(m, plan, start, steps, e);
    ghost var applied := steps + [e];
    r, steps := Measure(target, job, evidence, start, applied);
  }

  /** Build what the patch left, and run it. */
  method Measure(target: Checkout, job: Job, evidence: seq<string>, ghost start: World, ghost applied: seq<Event>)
    returns (r: Result<Gate.StageResult, string>, ghost steps: seq<Event>)
    requires Underway(target.machine, M1(job), applied) && |applied| == 4 && Spoken(evidence)
    requires Chained(start, applied, target.world)
    modifies target
    ensures Chained(start, steps, target.world)
    ensures Answered(target.machine, M1(job), steps, r)
  {
    ghost var m, plan := target.machine, M1(job);
    var ok, e := target.Build();
    if !ok {
      r := Err("build the patched tree");
      Conclude(m, plan, start, applied, e, r);
      steps := applied + [e];
      return;
    }
    Continue(m, plan, start, applied, e);
    ghost var built := applied + [e];
    var failure, after;
    failure, after, steps, e := RunBuilt(target, job, plan, start, built);
    if failure.Some? {
      return Err(failure.value), steps;
    }
    var judged := JudgePatch(after.value, evidence);
    r := Ok(judged);
    Conclude(m, plan, start, steps, e, r);
    steps := steps + [e];
  }

  /* ---------- what an answer is worth ---------- */

  /** The operations of M1 on a job, in order, as far as they came. */
  ghost predicate InOrder(steps: seq<Event>, job: Job) {
    var run := DoRun(job.blob, job.harness, job.pov);
    && |steps| <= 6
    && forall i :: 0 <= i < |steps| ==>
         KindOf(steps[i]) == [DoReset, DoBuild, run, DoApply(job.patch), DoBuild, run][i]
  }

  /** When a patch is credited, when it is blamed, and when neither. The vulnerability has to
      show without the patch, at a site that is not another one; then a patch that applies is
      judged by what its own build does. */
  lemma CreditIff(machine: Machine, job: Job, steps: seq<Event>, r: Result<Gate.StageResult, string>)
    requires Answered(machine, M1(job), steps, r)
    ensures InOrder(steps, job) && (r.Ok? <==> AllMeasured(machine, steps, job))
    ensures r.Ok? && r.value.outcome.Passed? <==>
            AllMeasured(machine, steps, job) && |steps| == 6 && !Fires(steps[5], job)
    ensures r.Ok? && r.value.outcome.Failed? <==>
            && AllMeasured(machine, steps, job)
            && ((|steps| == 4 && !Took(steps[3]))
                || (|steps| == 6 && Fires(steps[5], job) && !SiteOf(steps[5], job).Undetermined?))
    ensures r.Ok? && r.value.outcome.Undecided? <==>
            && AllMeasured(machine, steps, job)
            && (|steps| == 3 || (|steps| == 6 && Fires(steps[5], job) && SiteOf(steps[5], job).Undetermined?))
    ensures r.Ok? ==>
              && (|steps| == 3 <==> !Fires(steps[2], job) || SiteOf(steps[2], job).Differ?)
              && (|steps| > 3 ==> (|steps| == 4 <==> !Took(steps[3])))
              && (|steps| > 4 ==> |steps| == 6)
  {
    CreditSteps(machine, job, steps, r);
    ClearIff(machine, M1(job), job, steps, r);
    KindsInOrder(steps, job);
  }

  lemma KindsInOrder(steps: seq<Event>, job: Job)
    requires InOrder(steps, job)
    ensures |steps| > 2 ==> steps[0].Reset? && steps[1].Built? && steps[2].Ran?
    ensures |steps| > 3 ==> steps[3].Applied?
    ensures |steps| > 5 ==> steps[4].Built? && steps[5].Ran?
  {
  }

  /** The same, on what the events say they read. */
  lemma CreditSteps(machine: Machine, job: Job, steps: seq<Event>, r: Result<Gate.StageResult, string>)
    requires Answered(machine, M1(job), steps, r)
    ensures InOrder(steps, job)
    ensures r.Ok? && r.value.outcome.Passed? <==>
            Clear(steps) && |steps| == 6 && steps[5].Ran? && !steps[5].run.value.sanitizerFired
    ensures r.Ok? && r.value.outcome.Failed? <==>
            && Clear(steps) && |steps| > 3
            && ((|steps| == 4 && !Took(steps[3]))
                || (|steps| == 6 && FiredAt(steps[5]).Some? && FiredAt(steps[5]) != Some(Some(Undetermined))))
    ensures r.Ok? && r.value.outcome.Undecided? <==>
            && Clear(steps)
            && (|steps| == 3 || (|steps| == 6 && FiredAt(steps[5]) == Some(Some(Undetermined))))
    ensures r.Ok? ==>
              && |steps| > 2 && (|steps| == 3 <==> !Shown(steps[2]))
              && (|steps| > 3 ==> (|steps| == 4 <==> !Took(steps[3])))
              && (|steps| > 4 ==> |steps| == 6 && steps[5].Ran? && steps[5].run.Some?)
    ensures r.Ok? ==>
              r.value.reason == if |steps| == 3 then POV_NOT_REPRODUCED
                                else if |steps| == 4 then PATCH_DOES_NOT_APPLY
                                else Attribution(steps[5].run.value).1
  {
    StepsWere(machine, M1(job), steps, r);
    NothingMeasuredIsNoVerdict(machine, M1(job), steps, r);
    assert |steps| > 2 ==> steps[2].Ran?;
    assert |steps| > 3 ==> steps[3].Applied?;
    assert |steps| > 5 ==> steps[5].Ran?;
  }

  /** The site of the finding, if the run made one. */
  function FiredAt(e: Event): Option<Option<SiteMatch>> {
    if e.Ran? && e.run.Some? && e.run.value.sanitizerFired then Some(e.run.value.site) else None
  }

  function ReasonFor(site: Option<SiteMatch>): string {
    match site
    case None => ""
    case Some(Same) => "revert-attribute-fail"
    case Some(Differ) => "new-sanitizer-finding"
    case Some(Undetermined) => "pov-site-undetermined"
  }

  lemma AttributionReason(run: PoVRun)
    requires run.sanitizerFired <==> run.site.Some?
    ensures Attribution(run).1 == ReasonFor(run.site)
  {
  }

  /** The reason that goes with each verdict. */
  lemma ReasonIs(machine: Machine, job: Job, steps: seq<Event>, r: Result<Gate.StageResult, string>)
    requires Answered(machine, M1(job), steps, r) && r.Ok?
    ensures |steps| == 3 ==> r.value.reason == "pov-not-reproduced"
    ensures |steps| == 4 ==> r.value.reason == "patch-does-not-apply"
    ensures |steps| == 6 ==>
              r.value.reason == ReasonFor(if Fires(steps[5], job) then Some(SiteOf(steps[5], job)) else None)
  {
    CreditSteps(machine, job, steps, r);
    if |steps| == 6 {
      ClearIff(machine, M1(job), job, steps, r);
      AttributionReason(steps[5].run.value);
    }
  }

  /** Behind a credited patch stand two builds that recorded exit code 0 and two reports, each
      in a directory that its own invocation made: without the patch the harness ran and the
      sanitizer's name is there; with it the harness ran and the name is not. */
  lemma CreditRestsOnItsOwnOutput(machine: Machine, job: Job, steps: seq<Event>, r: Result<Gate.StageResult, string>)
    requires Answered(machine, M1(job), steps, r) && r.Ok? && r.value.outcome.Passed?
    ensures |steps| == 6 && RecordedSuccess(steps[1]) && RecordedSuccess(steps[4])
    ensures ReportOf(steps[2], job).Some? && ReportOf(steps[5], job).Some?
    ensures var without, patched := ReportOf(steps[2], job).value, ReportOf(steps[5], job).value;
            && Contains(without, "Running: ") && Contains(without, job.pov.expectedSanitizer)
            && Contains(patched, "Running: ") && !Contains(patched, job.pov.expectedSanitizer)
  {
    CreditIff(machine, job, steps, r);
    KindsInOrder(steps, job);
    assert forall i :: i in {1, 2, 4, 5} ==> Measured(machine, steps[i], job);
  }
}
