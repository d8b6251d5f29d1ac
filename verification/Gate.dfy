/** pkg/gate: the runner that turns stage results into a Decision, and the validator
    that refuses a Decision claiming more than its stages support. */
module Gate {
  import opened Text

  datatype Outcome = Passed | Failed | Undecided | Unknown(text: string)

  datatype Verdict = Accept | Reject | Error | Unrecognised(text: string)

  datatype StageResult = StageResult(stage: string, outcome: Outcome, reason: string, evidence: seq<string>)

  datatype Artifact = Artifact(role: string, path: string, sha256: string)

  datatype Decision = Decision(
    caseId: string, candidateId: string,
    verdict: Verdict, reason: string,
    stages: seq<StageResult>, notProven: seq<string>,
    artifacts: seq<Artifact>, usage: seq<string>)

  /** At least one entry carries something. */
  predicate SaysSomething(ss: seq<string>) { exists i :: 0 <= i < |ss| && !Blank(ss[i]) }

  function CountNonBlank(ss: seq<string>): nat {
    if ss == [] then 0 else CountNonBlank(ss[..|ss| - 1]) + if Blank(ss[|ss| - 1]) then 0 else 1
  }

  method NonBlank(ss: seq<string>) returns (n: nat)
    ensures n == CountNonBlank(ss)
    ensures n > 0 <==> SaysSomething(ss)
  {
    n := 0;
    for i := 0 to |ss|
      invariant n == CountNonBlank(ss[..i])
      invariant n > 0 <==> exists k :: 0 <= k < i && !Blank(ss[k])
    {
      assert ss[..i + 1][..i] == ss[..i];
      if !Blank(ss[i]) {
        n := n + 1;
      }
    }
    assert ss[..|ss|] == ss;
  }

  /* ---------- what a decision may claim ---------- */

  predicate WellFormed(s: StageResult) {
    && s.stage != "" && SaysSomething(s.evidence)
    && match s.outcome
       case Passed => s.reason == ""
       case Failed => s.reason != ""
       case Undecided => s.reason != ""
       case Unknown(_) => false
  }

  /** The verdict and reason that the last recorded stage stands for. */
  predicate Matches(verdict: Verdict, reason: string, last: StageResult) {
    match verdict
    case Accept => last.outcome.Passed? && reason == ""
    case Reject => last.outcome.Failed? && reason == last.reason
    case Error => last.outcome.Undecided? && reason == last.reason
    case Unrecognised(_) => false
  }

  /** A decision its stages support: complete, with evidence everywhere, every stage but
      the last passed, and the verdict that of the last. */
  ghost predicate Supported(d: Decision) {
    && d.caseId != "" && d.candidateId != "" && SaysSomething(d.notProven)
    && d.stages != []
    && (forall i :: 0 <= i < |d.stages| ==> WellFormed(d.stages[i]))
    && (forall i :: 0 <= i < |d.stages| - 1 ==> d.stages[i].outcome.Passed?)
    && Matches(d.verdict, d.reason, d.stages[|d.stages| - 1])
  }

  /* ---------- the validator ---------- */

  datatype Problem =
    | NoCaseId | NoCandidateId | NothingNotProven | NoStages
    | BadStage(index: nat) | RecordedAfterStop(index: nat)
    | BadVerdict

  function ReasonsOf(stages: seq<StageResult>, o: Outcome): set<string> {
    set i | 0 <= i < |stages| && stages[i].outcome == o :: stages[i].reason
  }

  /** The verdict rules over the reasons collected per outcome. `subsumed` says whether
      the "rejected with an undecided stage" rule is in force. */
  predicate VerdictHolds(d: Decision, failed: set<string>, undecided: set<string>, subsumed: bool) {
    match d.verdict
    case Accept => d.reason == "" && failed == {} && undecided == {}
    case Reject => (subsumed ==> undecided == {}) && d.reason != "" && d.reason in failed
    case Error => d.reason != "" && d.reason in undecided && failed == {}
    case Unrecognised(_) => false
  }

  /** The conjunction of everything Validate looks at. */
  ghost predicate Checks(d: Decision, subsumed: bool) {
    && d.caseId != "" && d.candidateId != "" && SaysSomething(d.notProven) && d.stages != []
    && (forall i :: 0 <= i < |d.stages| ==> WellFormed(d.stages[i]))
    && (forall i :: 0 <= i < |d.stages| - 1 ==> d.stages[i].outcome.Passed?)
    && VerdictHolds(d, ReasonsOf(d.stages, Failed), ReasonsOf(d.stages, Undecided), subsumed)
  }

  /** The validator's rules, collected from three directions, pin the verdict to the last
      stage; and the rule its comment calls subsumed can go without letting anything in. */
  lemma ChecksIffSupported(d: Decision, subsumed: bool)
    ensures Checks(d, subsumed) <==> Supported(d)
  {
    if d.stages != [] && forall i :: 0 <= i < |d.stages| - 1 ==> d.stages[i].outcome.Passed? {
      LastDecides(d.stages, Failed);
      LastDecides(d.stages, Undecided);
    }
  }

  lemma LastDecides(stages: seq<StageResult>, o: Outcome)
    requires stages != [] && !o.Passed?
    requires forall i :: 0 <= i < |stages| - 1 ==> stages[i].outcome.Passed?
    ensures ReasonsOf(stages, o) ==
            if stages[|stages| - 1].outcome == o then {stages[|stages| - 1].reason} else {}
  {
  }

  /** What each problem says of the decision. */
  ghost predicate Has(d: Decision, p: Problem) {
    match p
    case NoCaseId => d.caseId == ""
    case NoCandidateId => d.candidateId == ""
    case NothingNotProven => !SaysSomething(d.notProven)
    case NoStages => d.stages == []
    case BadStage(i) => i < |d.stages| && !WellFormed(d.stages[i])
    case RecordedAfterStop(i) =>
      && i < |d.stages| - 1 && !d.stages[i].outcome.Passed?
      && forall k :: 0 <= k < i ==> d.stages[k].outcome.Passed?
    case BadVerdict => !VerdictHolds(d, ReasonsOf(d.stages, Failed), ReasonsOf(d.stages, Undecided), true)
  }

  /** The list names exactly the problems there are. */
  method Validate(d: Decision) returns (problems: seq<Problem>)
    ensures problems == [] <==> Supported(d)
    ensures forall p :: p in problems <==> Has(d, p)
  {
    ChecksIffSupported(d, true);
    problems := [];
    if d.caseId == "" {
      problems := problems + [NoCaseId];
    }
    if d.candidateId == "" {
      problems := problems + [NoCandidateId];
    }
    var said := NonBlank(d.notProven);
    if said == 0 {
      problems := problems + [NothingNotProven];
    }
    if d.stages == [] {
      problems := problems + [NoStages];
    }
    var stageProblems, failed, undecided := CheckStages(d.stages);
    problems := problems + stageProblems;
    var stop := CheckStop(d.stages);
    if stop.Some? {
      problems := problems + [RecordedAfterStop(stop.value)];
    }
    if !VerdictHolds(d, failed, undecided, true) {
      problems := problems + [BadVerdict];
    }
  }

  method CheckStages(stages: seq<StageResult>)
    returns (problems: seq<Problem>, failed: set<string>, undecided: set<string>)
    ensures problems == [] <==> forall i :: 0 <= i < |stages| ==> WellFormed(stages[i])
    ensures forall p :: p in problems <==> p.BadStage? && p.index < |stages| && !WellFormed(stages[p.index])
    ensures failed == ReasonsOf(stages, Failed) && undecided == ReasonsOf(stages, Undecided)
  {
    problems, failed, undecided := [], {}, {};
    for i := 0 to |stages|
      invariant problems == [] <==> forall k :: 0 <= k < i ==> WellFormed(stages[k])
      invariant forall p :: p in problems <==> p.BadStage? && p.index < i && !WellFormed(stages[p.index])
      invariant failed == set k | 0 <= k < i && stages[k].outcome == Failed :: stages[k].reason
      invariant undecided == set k | 0 <= k < i && stages[k].outcome == Undecided :: stages[k].reason
    {
      var s := stages[i];
      var said := NonBlank(s.evidence);
      var reasonWrong := match s.outcome
        case Passed => s.reason != ""
        case Failed => s.reason == ""
        case Undecided => s.reason == ""
        case Unknown(_) => true;
      if reasonWrong || s.stage == "" || said == 0 {
        problems := problems + [BadStage(i)];
      }
      match s.outcome
      case Failed => failed := failed + {s.reason};
      case Undecided => undecided := undecided + {s.reason};
      case _ =>
    }
  }

  /** The short-circuit loop: the first stage that is not passed must be the last. */
  method CheckStop(stages: seq<StageResult>) returns (r: Option<nat>)
    ensures r.None? <==> forall i :: 0 <= i < |stages| - 1 ==> stages[i].outcome.Passed?
    ensures r.Some? ==> r.value < |stages| - 1 && !stages[r.value].outcome.Passed?
    ensures r.Some? ==> forall k :: 0 <= k < r.value ==> stages[k].outcome.Passed?
  {
    for i := 0 to |stages|
      invariant forall k :: 0 <= k < i && k < |stages| - 1 ==> stages[k].outcome.Passed?
    {
      if !stages[i].outcome.Passed? && i != |stages| - 1 {
        return Some(i);
      }
    }
    r := None;
  }

  /* ---------- the runner ---------- */

  /** A stage, as the runner sees it: its name, and what running it gives. */
  datatype Stage = Stage(name: string, result: Result<StageResult, string>)

  datatype RunError = CouldNotRun(stage: string) | MalformedDecision

  predicate Stops(o: Outcome) { o.Failed? || o.Undecided? }

  function Named(s: Stage): StageResult
    requires s.result.Ok?
  {
    if s.result.value.stage == "" then s.result.value.(stage := s.name) else s.result.value
  }

  /** The results the runner records: up to and including the first that stops it. */
  function Recorded(stages: seq<Stage>): Result<seq<StageResult>, string> {
    if stages == [] then Ok([])
    else if stages[0].result.Err? then Err(stages[0].name)
    else
      var res := Named(stages[0]);
      if Stops(res.outcome) then Ok([res]) else Prepend([res], Recorded(stages[1..]))
  }

  function Prepend(first: seq<StageResult>, r: Result<seq<StageResult>, string>): Result<seq<StageResult>, string> {
    match r
    case Err(e) => Err(e)
    case Ok(rest) => Ok(first + rest)
  }

  lemma PrependTwice(a: seq<StageResult>, b: seq<StageResult>, r: Result<seq<StageResult>, string>)
    ensures Prepend(a, Prepend(b, r)) == Prepend(a + b, r)
    ensures Prepend([], r) == r && Prepend(a, Ok([])) == Ok(a)
  {
    if r.Ok? {
      assert a + (b + r.value) == (a + b) + r.value;
      assert [] + r.value == r.value;
    }
    assert a + [] == a;
  }

  function VerdictOf(results: seq<StageResult>): (Verdict, string) {
    if results == [] then (Accept, "")
    else
      var last := results[|results| - 1];
      match last.outcome
      case Failed => (Reject, last.reason)
      case Undecided => (Error, last.reason)
      case _ => (Accept, "")
  }

  function Assemble(caseId: string, candidateId: string, results: seq<StageResult>, notProven: seq<string>): Decision {
    Decision(caseId, candidateId, VerdictOf(results).0, VerdictOf(results).1, results, notProven, [], [])
  }

  ghost function VerifyOutcome(caseId: string, candidateId: string, stages: seq<Stage>, notProven: seq<string>):
    Result<Decision, RunError>
  {
    match Recorded(stages)
    case Err(name) => Err(CouldNotRun(name))
    case Ok(results) =>
      var d := Assemble(caseId, candidateId, results, notProven);
      if Supported(d) then Ok(d) else Err(MalformedDecision)
  }

  method Verify(caseId: string, candidateId: string, stages: seq<Stage>, notProven: seq<string>)
    returns (r: Result<Decision, RunError>)
    ensures r == VerifyOutcome(caseId, candidateId, stages, notProven)
  {
    var recorded: seq<StageResult> := [];
    var verdict, reason := Accept, "";
    var i := 0;
    PrependTwice([], [], Recorded(stages));
    assert stages[0..] == stages;
    while i < |stages|
      invariant 0 <= i <= |stages|
      invariant forall k :: 0 <= k < |recorded| ==> !Stops(recorded[k].outcome)
      invariant verdict == Accept && reason == ""
      invariant Recorded(stages) == Prepend(recorded, Recorded(stages[i..]))
    {
      var s := stages[i];
      assert stages[i..][0] == s && stages[i..][1..] == stages[i + 1..];
      if s.result.Err? {
        return Err(CouldNotRun(s.name));
      }
      var res := Named(s);
      PrependTwice(recorded, [res], Recorded(stages[i + 1..]));
      recorded := recorded + [res];
      if res.outcome.Failed? {
        verdict, reason := Reject, res.reason;
        break;
      }
      if res.outcome.Undecided? {
        verdict, reason := Error, res.reason;
        break;
      }
      i := i + 1;
    }
    PrependTwice(recorded, [], Ok([]));
    assert Recorded(stages) == Ok(recorded);
    var d := Decision(caseId, candidateId, verdict, reason, recorded, notProven, [], []);
    assert d == Assemble(caseId, candidateId, recorded, notProven);
    var problems := Validate(d);
    r := if problems == [] then Ok(d) else Err(MalformedDecision);
  }

  /* ---------- the validator describes exactly the runner ---------- */

  /** Stages that give back the recorded results. */
  function Replay(results: seq<StageResult>): seq<Stage> {
    seq(|results|, i requires 0 <= i < |results| => Stage(results[i].stage, Ok(results[i])))
  }

  lemma {:induction false} ReplayRecords(results: seq<StageResult>, more: seq<Stage>)
    requires results != []
    requires forall i :: 0 <= i < |results| ==> WellFormed(results[i])
    requires forall i :: 0 <= i < |results| - 1 ==> results[i].outcome.Passed?
    requires results[|results| - 1].outcome.Passed? ==> more == []
    ensures Recorded(Replay(results) + more) == Ok(results)
  {
    var stages := Replay(results) + more;
    assert WellFormed(results[0]);
    assert stages[0] == Stage(results[0].stage, Ok(results[0]));
    assert results == [results[0]] + results[1..];
    if |results| == 1 {
      assert stages[1..] == more && results == [results[0]];
      if results[0].outcome.Passed? {
        PrependTwice([results[0]], [], Ok([]));
      }
    } else {
      assert stages[1..] == Replay(results[1..]) + more;
      ReplayRecords(results[1..], more);
    }
  }

  /** Every decision the validator accepts is what the runner returns on stages replaying
      its results; after a stage that stopped it, further stages change nothing. */
  lemma SupportedIsReplayed(d: Decision, more: seq<Stage>)
    requires Supported(d) && (d.verdict.Accept? ==> more == [])
    ensures VerifyOutcome(d.caseId, d.candidateId, Replay(d.stages) + more, d.notProven) ==
            Ok(d.(artifacts := [], usage := []))
  {
    ReplayRecords(d.stages, more);
    assert Assemble(d.caseId, d.candidateId, d.stages, d.notProven) == d.(artifacts := [], usage := []);
  }

  /** So the validator accepts exactly the range of the runner, artifacts and usage aside. */
  lemma RangeIsSupported(d: Decision)
    ensures Supported(d) && d.artifacts == [] && d.usage == [] <==>
            exists stages :: VerifyOutcome(d.caseId, d.candidateId, stages, d.notProven) == Ok(d)
  {
    if Supported(d) {
      SupportedIsReplayed(d, []);
    }
  }

  lemma {:induction false} RecordedStopsOnce(stages: seq<Stage>)
    requires Recorded(stages).Ok?
    ensures var rs := Recorded(stages).value;
            && |rs| <= |stages|
            && (forall i :: 0 <= i < |rs| ==> stages[i].result.Ok? && rs[i] == Named(stages[i]))
            && (forall i :: 0 <= i < |rs| - 1 ==> !Stops(rs[i].outcome))
            && (|rs| < |stages| ==> rs != [] && Stops(rs[|rs| - 1].outcome))
  {
    if stages != [] && !Stops(Named(stages[0]).outcome) {
      RecordedStopsOnce(stages[1..]);
    }
  }

  /** What the runner itself decides is never what the validator objects to: a run is
      refused exactly when an id, the not-proven section, every stage, or the form of a
      recorded result is missing. */
  lemma {:induction false} RunnerRefusedOnlyForIncompleteness(
      caseId: string, candidateId: string, stages: seq<Stage>, notProven: seq<string>)
    requires Recorded(stages).Ok?
    ensures VerifyOutcome(caseId, candidateId, stages, notProven).Ok? <==>
            && caseId != "" && candidateId != "" && SaysSomething(notProven) && stages != []
            && (forall r :: r in Recorded(stages).value ==> WellFormed(r))
  {
    RecordedStopsOnce(stages);
    var rs := Recorded(stages).value;
    if forall r :: r in rs ==> WellFormed(r) {
      forall i | 0 <= i < |rs| - 1 ensures rs[i].outcome.Passed? {
        assert WellFormed(rs[i]);
      }
      if rs != [] {
        assert WellFormed(rs[|rs| - 1]);
      }
    }
  }

  /* ---------- the same without the runner's own words ---------- */

  /** The result of this stage, or its error, ends the run. */
  ghost predicate HaltsAt(stages: seq<Stage>, k: nat) {
    && k < |stages| && Halts(stages[k])
    && forall j :: 0 <= j < k ==> !Halts(stages[j])
  }

  predicate Halts(s: Stage) {
    s.result.Err? || s.result.value.outcome == Failed || s.result.value.outcome == Undecided
  }

  /** What is recorded of a stage is its result, under the stage's name if it gives none. */
  predicate IsRecordOf(r: StageResult, s: Stage) {
    && s.result.Ok?
    && r == StageResult(if s.result.value.stage == "" then s.name else s.result.value.stage,
                        s.result.value.outcome, s.result.value.reason, s.result.value.evidence)
  }

  /** The records are those of the stages up to and including the first that ends the run. */
  ghost predicate AreRecords(rs: seq<StageResult>, stages: seq<Stage>) {
    && |rs| <= |stages|
    && (forall i :: 0 <= i < |rs| ==> IsRecordOf(rs[i], stages[i]))
    && if |rs| == |stages| then forall k :: 0 <= k < |stages| - 1 ==> !HaltsAt(stages, k)
       else rs != [] && HaltsAt(stages, |rs| - 1)
  }

  lemma HaltsLater(stages: seq<Stage>, k: nat)
    requires stages != []
    ensures HaltsAt(stages, k) <==> if k == 0 then Halts(stages[0]) else !Halts(stages[0]) && HaltsAt(stages[1..], k - 1)
  {
    if k > 0 && HaltsAt(stages, k) {
      assert forall j :: 0 <= j < k - 1 ==> stages[1..][j] == stages[j + 1];
    }
    if k > 0 && !Halts(stages[0]) && HaltsAt(stages[1..], k - 1) {
      forall j | 0 <= j < k ensures !Halts(stages[j]) {
        assert j > 0 ==> stages[j] == stages[1..][j - 1];
      }
    }
  }

  /** A stage that cannot run stops everything, under its name, unless one before it ended the run. */
  lemma {:induction false} ErrorIs(stages: seq<Stage>, name: string)
    ensures Recorded(stages) == Err(name) <==>
            exists k: nat :: HaltsAt(stages, k) && stages[k].result.Err? && stages[k].name == name
  {
    if stages != [] {
      ErrorIs(stages[1..], name);
      forall k: nat ensures HaltsAt(stages, k) <==>
          if k == 0 then Halts(stages[0]) else !Halts(stages[0]) && HaltsAt(stages[1..], k - 1) {
        HaltsLater(stages, k);
      }
      if Recorded(stages) == Err(name) && !Halts(stages[0]) {
        var k: nat :| HaltsAt(stages[1..], k) && stages[1..][k].result.Err? && stages[1..][k].name == name;
        assert HaltsAt(stages, k + 1) && stages[k + 1] == stages[1..][k];
      }
      if k: nat :| HaltsAt(stages, k) && stages[k].result.Err? && stages[k].name == name {
        assert k > 0 ==> HaltsAt(stages[1..], k - 1) && stages[1..][k - 1] == stages[k];
      }
    }
  }

  lemma RecordedAre(stages: seq<Stage>)
    requires Recorded(stages).Ok?
    ensures AreRecords(Recorded(stages).value, stages)
  {
    RecordedStopsOnce(stages);
    var rs := Recorded(stages).value;
    assert forall i :: 0 <= i < |rs| ==> IsRecordOf(rs[i], stages[i]) && (Stops(rs[i].outcome) <==> Halts(stages[i]));
  }

  /** Only one list can be the records of these stages. */
  lemma OneRecord(a: seq<StageResult>, b: seq<StageResult>, stages: seq<Stage>)
    requires AreRecords(a, stages) && AreRecords(b, stages)
    ensures a == b
  {
    assert forall i :: 0 <= i < |a| ==> IsRecordOf(a[i], stages[i]) && IsRecordOf(b[i], stages[i]);
  }

  lemma NoErrorInRecords(rs: seq<StageResult>, stages: seq<Stage>)
    requires AreRecords(rs, stages)
    ensures Recorded(stages) == Ok(rs)
  {
    if Recorded(stages).Err? {
      ErrorIs(stages, Recorded(stages).error);
    } else {
      RecordedAre(stages);
      OneRecord(rs, Recorded(stages).value, stages);
    }
  }

  ghost predicate Something(ss: seq<string>) { exists i, j :: 0 <= i < |ss| && 0 <= j < |ss[i]| && !IsSpace(ss[i][j]) }

  lemma SaysSomethingIff(ss: seq<string>)
    ensures SaysSomething(ss) <==> Something(ss)
  {
    if SaysSomething(ss) {
      var i :| 0 <= i < |ss| && !Blank(ss[i]);
      var j :| 0 <= j < |ss[i]| && !IsSpace(ss[i][j]);
    }
  }

  /** A record that may stand in a decision: named, with evidence, and with a reason exactly
      if it is not a pass. */
  ghost predicate MayStand(r: StageResult) {
    && r.stage != "" && Something(r.evidence) && !r.outcome.Unknown?
    && (r.outcome.Passed? <==> r.reason == "")
  }

  function DecisionOn(caseId: string, candidateId: string, notProven: seq<string>, rs: seq<StageResult>,
                      last: StageResult): Decision
  {
    var verdict := if last.outcome.Passed? then Accept else if last.outcome.Failed? then Reject else Error;
    Decision(caseId, candidateId, verdict, last.reason, rs, notProven, [], [])
  }

  lemma MayStandIff(x: StageResult)
    ensures WellFormed(x) <==> MayStand(x)
  {
    SaysSomethingIff(x.evidence);
  }

  /** The runner on stages whose records are `rs`. The last record decides. */
  lemma RunnerIs(caseId: string, candidateId: string, stages: seq<Stage>, notProven: seq<string>, rs: seq<StageResult>)
    requires AreRecords(rs, stages)
    ensures var r := VerifyOutcome(caseId, candidateId, stages, notProven);
            && (r.Ok? <==> caseId != "" && candidateId != "" && Something(notProven) && stages != []
                           && forall x :: x in rs ==> MayStand(x))
            && (r.Err? ==> r.error == MalformedDecision)
            && (r.Ok? ==> rs != [] && r.value == DecisionOn(caseId, candidateId, notProven, rs, rs[|rs| - 1]))
  {
    NoErrorInRecords(rs, stages);
    RunnerRefusedOnlyForIncompleteness(caseId, candidateId, stages, notProven);
    SaysSomethingIff(notProven);
    forall x | x in rs ensures WellFormed(x) <==> MayStand(x) {
      MayStandIff(x);
    }
  }

  /** And on stages of which one cannot be run. */
  lemma RunnerCannotRun(caseId: string, candidateId: string, stages: seq<Stage>, notProven: seq<string>, k: nat)
    requires HaltsAt(stages, k) && stages[k].result.Err?
    ensures VerifyOutcome(caseId, candidateId, stages, notProven) == Err(CouldNotRun(stages[k].name))
  {
    ErrorIs(stages, stages[k].name);
  }
}
