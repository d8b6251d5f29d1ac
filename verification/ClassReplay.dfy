/** pkg/classreplay, gate M2: replay the whole class of recurring inputs, against a
    reference fix where there is one and against the unpatched build where there is none. */
module ClassReplay {
  import opened Text
  import opened Corpus
  import Gate

  const NAME := "class-replay"

  datatype Class = Class(size: int, observer: string)

  /** What the source tree holds, up to files that git ignores: a reset leaves those. */
  datatype Tree = Pinned | WithPatch(patch: string) | Unknown

  datatype GitStep = Checkout | HardReset | Clean

  /** Everything the target runs, at the time it runs it. `generate` answers for the class
      member of a length; `observe` gives what the observer prints over a tree and a members
      directory with these files; that it may differ with time covers what ignored files do. */
  datatype Env = Env(
    generatorPresent: bool,
    generate: (nat, nat) -> bool,
    git: (GitStep, nat) -> bool,
    applies: (string, nat) -> bool,
    builds: (Tree, nat) -> bool,
    observe: (Tree, set<string>, nat) -> Option<string>,
    normalise: string -> string)

  /* ---------- the members of a class ---------- */

  /** fmt.Sprintf("kw%02d.png", i) */
  function MemberName(i: nat): string { "kw" + ((if i < 10 then "0" else "") + Digits(i)) + ".png" }

  function MemberNames(n: nat): seq<string> { seq(n, i requires 0 <= i < n => MemberName(i + 1)) }

  /** A members directory after this many members were generated into it. */
  function DirWith(dir: set<string>, n: nat): set<string> { dir + set m | m in MemberNames(n) }

  /** How much of a class of this size a bound lets through; no bound means all of it. */
  function Bound(members: int, size: int): int { if members <= 0 || members > size then size else members }

  lemma PaddedDigits(i: nat)
    ensures AllDigits((if i < 10 then "0" else "") + Digits(i))
    ensures DigitsValue((if i < 10 then "0" else "") + Digits(i)) == i
  {
    DigitsRoundTrip(i);
    if i < 10 {
      var s := "0" + Digits(i);
      assert s[..|s| - 1] == "0" && "0"[..0] == "";
      assert Digits(i)[..0] == "";
    } else {
      assert "" + Digits(i) == Digits(i);
    }
  }

  /** Different lengths give different members. */
  lemma MembersAreDistinct(i: nat, j: nat)
    requires MemberName(i) == MemberName(j)
    ensures i == j
  {
    var a, b := (if i < 10 then "0" else "") + Digits(i), (if j < 10 then "0" else "") + Digits(j);
    assert MemberName(i)[2..|MemberName(i)| - 4] == a && MemberName(j)[2..|MemberName(j)| - 4] == b;
    PaddedDigits(i);
    PaddedDigits(j);
  }

  /* ---------- what an observer says ---------- */

  function Lines(text: string): seq<string> {
    var n := LineEnd(text);
    if n == |text| then [text] else [text[..n]] + Lines(text[n + 1..])
  }

  function TabAt(line: string): (n: nat)
    ensures n <= |line| && (n < |line| ==> line[n] == '\t') && forall i :: 0 <= i < n ==> line[i] != '\t'
  {
    if line == "" || line[0] == '\t' then 0 else 1 + TabAt(line[1..])
  }

  predicate IsCR(c: char) { c == '\r' }

  /** A line that names a member, and what it says of it. */
  function Said(line: string): Option<(string, string)> {
    var l := TrimRight(line, IsCR);
    if TabAt(l) == |l| || TabAt(l) == 0 then None else Some((l[..TabAt(l)], l[TabAt(l) + 1..]))
  }

  /** Later lines overwrite earlier ones about the same member. */
  function Observations(lines: seq<string>, normalise: string -> string): map<string, string> {
    if lines == [] then map[]
    else
      var before := Observations(lines[..|lines| - 1], normalise);
      match Said(lines[|lines| - 1])
      case None => before
      case Some((name, said)) => before[name := normalise(said)]
  }

  method ReadObservations(text: string, normalise: string -> string) returns (seen: map<string, string>)
    ensures seen == Observations(Lines(text), normalise)
  {
    seen := map[];
    var lines := Lines(text);
    for i := 0 to |lines|
      invariant seen == Observations(lines[..i], normalise)
    {
      assert lines[..i + 1][..i] == lines[..i];
      var said := Said(lines[i]);
      if said.Some? {
        seen := seen[said.value.0 := normalise(said.value.1)];
      }
    }
    assert lines[..|lines|] == lines;
  }

  /** The line at `k` is about this member, and no later one is. */
  predicate LastAbout(lines: seq<string>, k: nat, m: string)
    requires k < |lines|
  {
    && Said(lines[k]).Some? && Said(lines[k]).value.0 == m
    && forall l :: k < l < |lines| && Said(lines[l]).Some? ==> Said(lines[l]).value.0 != m
  }

  /** What is read of a member is what the last line about it says. */
  lemma {:induction false} LastLineCounts(lines: seq<string>, normalise: string -> string, m: string)
    ensures (forall k :: 0 <= k < |lines| && Said(lines[k]).Some? ==> Said(lines[k]).value.0 != m) <==>
            m !in Observations(lines, normalise)
    ensures forall k :: 0 <= k < |lines| && LastAbout(lines, k, m) ==>
              m in Observations(lines, normalise)
              && Observations(lines, normalise)[m] == normalise(Said(lines[k]).value.1)
  {
    if lines != [] {
      var init, last := lines[..|lines| - 1], lines[|lines| - 1];
      assert forall k :: 0 <= k < |init| ==> init[k] == lines[k];
      assert forall k :: 0 <= k < |init| && LastAbout(lines, k, m) ==> LastAbout(init, k, m);
      LastLineCounts(init, normalise, m);
    }
  }

  function ReportLine(m: string, told: string -> string): string { m + "\t" + told(m) }

  /** A well-behaved observer's report: one line for each member. */
  function Report(members: seq<string>, told: string -> string): string {
    if members == [] then "" else ReportLine(members[0], told) + "\n" + Report(members[1..], told)
  }

  predicate OneLine(s: string) { '\n' !in s && (s == "" || s[|s| - 1] != '\r') }

  predicate PlainName(m: string) { m != "" && '\t' !in m && '\n' !in m }

  function ReportLines(members: seq<string>, told: string -> string): seq<string> {
    seq(|members|, i requires 0 <= i < |members| => ReportLine(members[i], told)) + [""]
  }

  lemma FirstLine(line: string, rest: string)
    requires '\n' !in line
    ensures Lines(line + "\n" + rest) == [line] + Lines(rest)
  {
    var text := line + "\n" + rest;
    assert text[|line|] == '\n' && text[..|line|] == line && text[|line| + 1..] == rest;
    assert LineEnd(text) == |line| by {
      assert forall i :: 0 <= i < |line| ==> text[i] == line[i] && line[i] != '\n';
    }
  }

  lemma ReportLinesStep(members: seq<string>, told: string -> string)
    requires members != []
    ensures ReportLines(members, told) == [ReportLine(members[0], told)] + ReportLines(members[1..], told)
  {
  }

  lemma {:induction false} LinesOfReport(members: seq<string>, told: string -> string)
    requires forall m :: m in members ==> '\n' !in ReportLine(m, told)
    ensures Lines(Report(members, told)) == ReportLines(members, told)
  {
    if members == [] {
      assert Lines("") == [""];
    } else {
      var line, rest := ReportLine(members[0], told), Report(members[1..], told);
      assert Report(members, told) == line + "\n" + rest;
      LinesOfReport(members[1..], told);
      FirstLine(line, rest);
      ReportLinesStep(members, told);
    }
  }

  lemma SaidOfLine(m: string, told: string -> string)
    requires PlainName(m) && OneLine(told(m))
    ensures Said(ReportLine(m, told)) == Some((m, told(m))) == Said(ReportLine(m, told) + "\r")
  {
    var line := ReportLine(m, told);
    assert line[|line| - 1] != '\r';
    assert forall i :: 0 <= i < |m| ==> line[i] == m[i];
    assert line[|m|] == '\t' && TabAt(line) == |m|;
    assert line[..|m|] == m && line[|m| + 1..] == told(m);
  }

  /** The members some line speaks of. */
  ghost function Named(lines: seq<string>): set<string> {
    set k | 0 <= k < |lines| && Said(lines[k]).Some? :: Said(lines[k]).value.0
  }

  /** Every line that speaks of a member says of it what `told` does; other lines may stand
      between them, for the observer's complaints are read along with its report. */
  ghost predicate Consistent(lines: seq<string>, told: string -> string) {
    forall k :: 0 <= k < |lines| && Said(lines[k]).Some? ==>
      Said(lines[k]).value.1 == told(Said(lines[k]).value.0)
  }

  lemma NamedGrows(lines: seq<string>, line: string)
    ensures Named(lines + [line]) == Named(lines) + if Said(line).Some? then {Said(line).value.0} else {}
  {
    var longer := lines + [line];
    assert longer[|lines|] == line;
    forall m | m in Named(lines) ensures m in Named(longer) {
      var k :| 0 <= k < |lines| && Said(lines[k]).Some? && Said(lines[k]).value.0 == m;
      assert longer[k] == lines[k];
    }
    forall m | m in Named(longer) && m !in Named(lines) ensures Said(line).Some? && m == Said(line).value.0 {
      var k :| 0 <= k < |longer| && Said(longer[k]).Some? && Said(longer[k]).value.0 == m;
      assert k < |lines| ==> longer[k] == lines[k];
    }
  }

  /** What consistent lines are read as. */
  lemma {:induction false} ObservationsOfLines(lines: seq<string>, told: string -> string, normalise: string -> string)
    requires Consistent(lines, told)
    ensures Observations(lines, normalise) == map m | m in Named(lines) :: normalise(told(m))
  {
    if lines != [] {
      var init, last := lines[..|lines| - 1], lines[|lines| - 1];
      assert lines == init + [last];
      assert forall k :: 0 <= k < |init| ==> init[k] == lines[k];
      ObservationsOfLines(init, told, normalise);
      NamedGrows(init, last);
    }
  }

  lemma ReportLinesSaid(members: seq<string>, told: string -> string, k: nat)
    requires forall m :: m in members ==> PlainName(m) && OneLine(told(m))
    requires k <= |members|
    ensures Said(ReportLines(members, told)[k]) ==
            if k < |members| then Some((members[k], told(members[k]))) else None
  {
    if k < |members| {
      assert members[k] in members;
      SaidOfLine(members[k], told);
    } else {
      assert Said("") == None;
    }
  }

  /** A report of one line for each member is consistent and speaks of these members. */
  lemma ReportSpeaksOfEach(members: seq<string>, told: string -> string)
    requires forall m :: m in members ==> PlainName(m) && OneLine(told(m))
    ensures Consistent(Lines(Report(members, told)), told)
    ensures Named(Lines(Report(members, told))) == set m | m in members
  {
    assert forall m :: m in members ==> '\n' !in ReportLine(m, told);
    LinesOfReport(members, told);
    var lines := ReportLines(members, told);
    forall k: nat | k < |lines|
      ensures Said(lines[k]) == if k < |members| then Some((members[k], told(members[k]))) else None
    {
      ReportLinesSaid(members, told, k);
    }
    NamedAre(lines, members, told);
  }

  lemma NamedAre(lines: seq<string>, members: seq<string>, told: string -> string)
    requires |members| <= |lines|
    requires forall k: nat :: k < |lines| ==>
               Said(lines[k]) == if k < |members| then Some((members[k], told(members[k]))) else None
    ensures Consistent(lines, told) && Named(lines) == set m | m in members
  {
    forall m | m in members ensures m in Named(lines) {
      var k :| 0 <= k < |members| && members[k] == m;
      assert Said(lines[k]).Some?;
    }
  }

  /** Such a report is read back complete, with what it says of each member. */
  lemma CompleteObserver(members: seq<string>, told: string -> string, normalise: string -> string)
    requires forall m :: m in members ==> PlainName(m) && OneLine(told(m))
    ensures Observations(Lines(Report(members, told)), normalise) == map m | m in members :: normalise(told(m))
  {
    ReportSpeaksOfEach(members, told);
    ObservationsOfLines(Lines(Report(members, told)), told, normalise);
  }

  /* ---------- the target ---------- */

  function TreeFor(patch: string): Tree { if patch == "" then Pinned else WithPatch(patch) }

  /** The map is what the observer printed, at some time, over the pinned tree with this
      patch and nothing else applied, and the members directory `dir`. */
  ghost predicate ObservedOver(env: Env, patch: string, dir: set<string>, seen: map<string, string>) {
    exists t: nat :: ObservedAt(env, patch, dir, seen, t)
  }

  /** The commands just before, one after the other: detach at the ref, reset and clean; apply
      the patch if there is one; build. Then the observer spoke. */
  predicate ObservedAt(env: Env, patch: string, dir: set<string>, seen: map<string, string>, t: nat) {
    var tree, said := TreeFor(patch), env.observe(TreeFor(patch), dir, t);
    && t >= 3 && CameClean(env, if patch == "" then t - 2 else t - 3)
    && (patch != "" ==> env.applies(patch, t - 2)) && env.builds(tree, t - 1)
    && said.Some? && seen == Observations(Lines(said.value), env.normalise)
  }

  /** The three git commands succeeded, the last of them at this time. */
  predicate CameClean(env: Env, t: nat) {
    t >= 2 && env.git(Checkout, t - 2) && env.git(HardReset, t - 1) && env.git(Clean, t)
  }

  class OssFuzzTarget {
    const env: Env
    const bound: int
    var tree: Tree
    /** The files of the members directory. */
    var dir: set<string>
    var now: nat

    constructor (env: Env, bound: int, tree: Tree, dir: set<string>)
      ensures this.env == env && this.bound == bound && this.tree == tree && this.dir == dir
    {
      this.env, this.bound, this.tree, this.dir := env, bound, tree, dir;
      now := 0;
    }

    /** The members up to the bound, each a file of the members directory, beside what was
        there; and the size the case declares for the class. */
    method Generate(fc: Class) returns (r: Option<(seq<string>, int)>)
      modifies this`dir, this`now
      ensures r.Some? ==> fc.size > 0 && r.value == (MemberNames(Bound(bound, fc.size)), fc.size)
      ensures r.Some? ==>
                && |r.value.0| == (if 0 < bound < fc.size then bound else fc.size)
                && forall i :: 1 <= i <= |r.value.0| ==>
                     r.value.0[i - 1] == "kw" + ((if i < 10 then "0" else "") + Digits(i)) + ".png"
      ensures r.Some? ==> dir == DirWith(old(dir), Bound(bound, fc.size))
      ensures old(dir) <= dir
      ensures fc.size <= 0 || !env.generatorPresent ==> r.None?
      ensures fc.size > 0 && env.generatorPresent && (forall i, t :: env.generate(i, t)) ==> r.Some?
    {
      if !env.generatorPresent || fc.size <= 0 {
        return None;
      }
      var n := Bound(bound, fc.size);
      var members: seq<string> := [];
      for i := 1 to n + 1
        invariant members == MemberNames(i - 1) && dir == DirWith(old(dir), i - 1)
      {
        now := now + 1;
        if !env.generate(i, now) {
          return None;
        }
        assert MemberNames(i) == MemberNames(i - 1) + [MemberName(i)];
        members, dir := members + [MemberName(i)], dir + {MemberName(i)};
      }
      r := Some((members, fc.size));
    }

    /** Detach at the ref, discard changes, remove what is untracked. */
    method Reset() returns (ok: bool)
      modifies this`tree, this`now
      ensures tree == if ok then Pinned else Unknown
      ensures ok <==> CameClean(env, old(now) + 3)
      ensures ok ==> now == old(now) + 3
      ensures (forall g, t :: env.git(g, t)) ==> ok
    {
      now := now + 1;
      if !env.git(Checkout, now) {
        tree := Unknown;
        return false;
      }
      now := now + 1;
      if !env.git(HardReset, now) {
        tree := Unknown;
        return false;
      }
      now := now + 1;
      if !env.git(Clean, now) {
        tree := Unknown;
        return false;
      }
      tree, ok := Pinned, true;
    }

    /** ReplayAgainst. Whatever was in the tree before, what is observed is the pinned tree
        with this patch; the tree is reset again afterwards, if it can be. */
    method ReplayAgainst(patch: string) returns (r: Option<map<string, string>>)
      modifies this`tree, this`now
      ensures r.Some? ==> r.value != map[] && ObservedOver(env, patch, dir, r.value)
      ensures r.Some? && (forall g, t :: env.git(g, t)) ==> tree == Pinned
      ensures Obliging(env, patch, dir) ==> r.Some?
    {
      var ok := Reset();
      if !ok {
        return None;
      }
      r := Replay(patch);
      ok := Reset();
    }

    method Replay(patch: string) returns (r: Option<map<string, string>>)
      requires tree == Pinned && CameClean(env, now)
      modifies this`tree, this`now
      ensures r.Some? ==> r.value != map[] && ObservedOver(env, patch, dir, r.value)
      ensures Obliging(env, patch, dir) ==> r.Some?
    {
      if patch != "" {
        now := now + 1;
        if !env.applies(patch, now) {
          return None;
        }
        tree := WithPatch(patch);
      }
      assert tree == TreeFor(patch);
      now := now + 1;
      if !env.builds(tree, now) {
        return None;
      }
      now := now + 1;
      var said := env.observe(tree, dir, now);
      if said.None? {
        return None;
      }
      var seen := ReadObservations(said.value, env.normalise);
      assert ObservedAt(env, patch, dir, seen, now);
      r := if seen == map[] then None else Some(seen);
    }
  }

  /** Nothing goes wrong while replaying under this patch. */
  ghost predicate Obliging(env: Env, patch: string, dir: set<string>) {
    && (forall g, t :: env.git(g, t)) && (forall t :: env.applies(patch, t)) &&
        (forall t :: env.builds(TreeFor(patch), t))
    && (forall t :: env.observe(TreeFor(patch), dir, t).Some?
                    && Observations(Lines(env.observe(TreeFor(patch), dir, t).value), env.normalise) != map[])
  }

  /* ---------- the stage ---------- */

  /** The two replays of one run: the oracle's and the candidate's. */
  datatype Replays = Replays(members: seq<string>, declared: int, ref: map<string, string>, cand: map<string, string>)

  /** A member that one of the replays says nothing of was not compared. */
  predicate Compared(p: Replays) { forall m :: m in p.members ==> m in p.ref && m in p.cand }

  predicate Diverges(p: Replays, m: string) { m in p.ref && m in p.cand && p.ref[m] != p.cand[m] }

  /** The member did not crash before the patch, and behaves differently after it. */
  predicate Unintended(p: Replays, sanitizer: string, m: string) { Diverges(p, m) && !Contains(p.ref[m], sanitizer) }

  /** What the comparison says of the candidate. */
  predicate Judged(p: Replays, reference: string, sanitizer: string, outcome: Gate.Outcome, reason: string) {
    if reference == "" then
      outcome == Gate.Undecided
      && reason == if exists m :: m in p.members && Unintended(p, sanitizer, m) then UNADJUDICATED
          else CLASS_NO_REFERENCE
    else if exists m :: m in p.members && Diverges(p, m) then outcome == Gate.Failed && reason == CLASS_REPLAY_FAIL
    else if |p.members| < p.declared then outcome == Gate.Undecided && reason == CLASS_TRUNCATED
    else outcome == Gate.Passed && reason == ""
  }

  /** Where the replays come from: both see what the members directory held, and the members
      of this run. */
  ghost predicate Made(env: Env, bound: int, fc: Class, before: set<string>, reference: string, candidate: string,
                       p: Replays) {
    && fc.size > 0 && p.members == MemberNames(Bound(bound, fc.size)) && p.declared == fc.size
    && ObservedOver(env, reference, DirWith(before, Bound(bound, fc.size)), p.ref)
    && ObservedOver(env, candidate, DirWith(before, Bound(bound, fc.size)), p.cand)
  }

  predicate Is(r: Gate.StageResult, outcome: Gate.Outcome, reason: string) {
    r.stage == "class-replay" && r.outcome == outcome && r.reason == reason && Gate.WellFormed(r)
  }

  /** How an answer must relate to the two replays; None if there were none to compare. */
  ghost predicate Answered(env: Env, bound: int, fc: Option<Class>, before: set<string>,
                           reference: string, candidate: string, sanitizer: string,
                           p: Option<Replays>, r: Result<Gate.StageResult, string>) {
    match fc
    case None => p.None? && r.Ok? && Is(r.value, Gate.Undecided, CLASS_NOT_DEFINED)
    case Some(c) =>
      if c.observer == "" then p.None? && r.Ok? && Is(r.value, Gate.Undecided, CLASS_OBSERVER_MISSING)
      else
        && (p.Some? ==> Made(env, bound, c, before, reference, candidate, p.value))
        && (r.Ok? <==> p.Some? && Compared(p.value))
        && (r.Ok? ==> Judged(p.value, reference, sanitizer, r.value.outcome, r.value.reason)
                      && Is(r.value, r.value.outcome, r.value.reason))
  }

  /** The loop over the members; None if some member was not compared. */
  method Disagreements(p: Replays) returns (found: Option<seq<string>>)
    ensures found.Some? <==> Compared(p)
    ensures found.Some? ==> forall m :: m in found.value <==> m in p.members && Diverges(p, m)
  {
    var disagreed: seq<string> := [];
    for i := 0 to |p.members|
      invariant forall j :: 0 <= j < i ==> p.members[j] in p.ref && p.members[j] in p.cand
      invariant forall m :: m in disagreed <==> m in p.members[..i] && Diverges(p, m)
    {
      var m := p.members[i];
      if m !in p.ref || m !in p.cand {
        return None;
      }
      assert p.members[..i + 1] == p.members[..i] + [m];
      if p.ref[m] != p.cand[m] {
        disagreed := disagreed + [m];
      }
    }
    assert p.members[..|p.members|] == p.members;
    found := Some(disagreed);
  }

  method UnintendedAmong(p: Replays, sanitizer: string, disagreed: seq<string>) returns (unintended: seq<string>)
    requires forall m :: m in disagreed <==> m in p.members && Diverges(p, m)
    ensures unintended != [] <==> exists m :: m in p.members && Unintended(p, sanitizer, m)
  {
    unintended := [];
    for i := 0 to |disagreed|
      invariant forall m :: m in unintended <==> m in disagreed[..i] && Unintended(p, sanitizer, m)
    {
      assert disagreed[i] in disagreed;
      assert disagreed[..i + 1] == disagreed[..i] + [disagreed[i]];
      if !Contains(p.ref[disagreed[i]], sanitizer) {
        unintended := unintended + [disagreed[i]];
      }
    }
    assert disagreed[..|disagreed|] == disagreed;
    if unintended != [] {
      assert unintended[0] in unintended;
    }
    if m :| m in p.members && Unintended(p, sanitizer, m) {
      assert m in disagreed;
    }
  }

  method Give(outcome: Gate.Outcome, reason: string, note: string) returns (r: Result<Gate.StageResult, string>)
    requires outcome.Passed? <==> reason == ""
    requires !outcome.Unknown?
    ensures r.Ok? && Is(r.value, outcome, reason)
  {
    var evidence := ["class: " + note];
    assert evidence[0][0] == 'c' && !Blank(evidence[0]);
    r := Ok(Gate.StageResult(NAME, outcome, reason, evidence));
  }

  method Judge(p: Replays, reference: string, sanitizer: string) returns (r: Result<Gate.StageResult, string>)
    ensures r.Ok? <==> Compared(p)
    ensures r.Ok? ==> Judged(p, reference, sanitizer, r.value.outcome, r.value.reason)
                      && Is(r.value, r.value.outcome, r.value.reason)
  {
    var found := Disagreements(p);
    if found.None? {
      return Err("a class member has no result");
    }
    var disagreed := found.value;
    if reference == "" {
      var unintended := UnintendedAmong(p, sanitizer, disagreed);
      if unintended == [] {
        r := Give(Gate.Undecided, CLASS_NO_REFERENCE, "every divergence is on a member that crashed before the patch");
        return;
      }
      r := Give(Gate.Undecided, UNADJUDICATED,
          "members that did not crash before the patch behave differently after it");
      return;
    }
    if |disagreed| > 0 {
      assert disagreed[0] in disagreed;
      r := Give(Gate.Failed, CLASS_REPLAY_FAIL, "the candidate diverges from a known-good fix");
      return;
    }
    if |p.members| < p.declared {
      r := Give(Gate.Undecided, CLASS_TRUNCATED, "no divergence in a part of the class");
      return;
    }
    r := Give(Gate.Passed, "", "the candidate agrees with the reference fix across the whole class");
  }

  /** Stage.Run */
  method Run(target: OssFuzzTarget, fc: Option<Class>, reference: string, candidate: string, sanitizer: string)
    returns (r: Result<Gate.StageResult, string>, ghost p: Option<Replays>)
    modifies target
    ensures Answered(target.env, target.bound, fc, old(target.dir), reference, candidate, sanitizer, p, r)
    ensures fc.Some? && fc.value.observer != "" && fc.value.size > 0 &&
            Helpful(target.env, reference, candidate, DirWith(old(target.dir), Bound(target.bound, fc.value.size))) ==>
            p.Some?
  {
    p := None;
    if fc.None? {
      r := Give(Gate.Undecided, CLASS_NOT_DEFINED, "the case defines no falsifying_class");
      return;
    }
    if fc.value.observer == "" {
      r := Give(Gate.Undecided, CLASS_OBSERVER_MISSING, "the falsifying_class has no observer");
      return;
    }
    var generated := target.Generate(fc.value);
    if generated.None? || generated.value.0 == [] {
      return Err("generate the class"), None;
    }
    var ref := target.ReplayAgainst(reference);
    if ref.None? {
      return Err("replay against the oracle"), None;
    }
    var cand := target.ReplayAgainst(candidate);
    if cand.None? {
      return Err("replay against the candidate"), None;
    }
    var replays := Replays(generated.value.0, generated.value.1, ref.value, cand.value);
    r := Judge(replays, reference, sanitizer);
    p := Some(replays);
  }

  ghost predicate Helpful(env: Env, reference: string, candidate: string, dir: set<string>) {
    && env.generatorPresent && (forall i, t :: env.generate(i, t))
    && Obliging(env, reference, dir) && Obliging(env, candidate, dir)
  }

  /* ---------- what an answer is worth ---------- */

  /** Without a reference fix the stage neither passes nor fails anything. */
  lemma NoReferenceNeverDecides(env: Env, bound: int, fc: Option<Class>, before: set<string>, candidate: string,
                                sanitizer: string, p: Option<Replays>, r: Result<Gate.StageResult, string>)
    requires Answered(env, bound, fc, before, "", candidate, sanitizer, p, r)
    ensures r.Err? || r.value.outcome.Undecided?
    ensures r.Ok? && p.Some? ==>
              r.value.reason == if exists m :: m in p.value.members && m in p.value.ref && m in p.value.cand
                                               && p.value.ref[m] != p.value.cand[m]
                                               && !Contains(p.value.ref[m], sanitizer)
                                then "unadjudicated-behaviour-change" else "class-no-reference"
    ensures fc.None? ==> r.Ok? && r.value.reason == "class-not-defined"
    ensures fc.Some? && fc.value.observer == "" ==> r.Ok? && r.value.reason == "class-observer-missing"
  {
  }

  /** Whenever the observer answers over this directory, it tells of the first `n` members,
      and what is read of each is what `told` says. Of anything else it may say anything. */
  ghost predicate Tells(env: Env, patch: string, dir: set<string>, n: nat, told: string -> string) {
    forall t, m :: m in MemberNames(n) && env.observe(TreeFor(patch), dir, t).Some? ==>
      Reads(env, env.observe(TreeFor(patch), dir, t).value, m, told)
  }

  predicate Reads(env: Env, text: string, m: string, told: string -> string) {
    var seen := Observations(Lines(text), env.normalise);
    m in seen && seen[m] == told(m)
  }

  /** It does so over both trees of a run, of the members generated for the run. */
  ghost predicate TellsOfRun(env: Env, bound: int, fc: Class, before: set<string>, reference: string,
                             candidate: string, ref: string -> string, cand: string -> string) {
    var n := Bound(bound, fc.size);
    n > 0 ==> Tells(env, reference, DirWith(before, n), n, ref) && Tells(env, candidate, DirWith(before, n), n, cand)
  }

  /** What is told of the member is the same under both patches. */
  predicate Agree(ref: string -> string, cand: string -> string, i: nat) {
    ref(MemberName(i)) == cand(MemberName(i))
  }

  predicate AllAgree(ref: string -> string, cand: string -> string, n: int) {
    forall i: nat :: 1 <= i <= n ==> Agree(ref, cand, i)
  }

  lemma Members(n: nat, m: string)
    ensures m in MemberNames(n) <==> exists i: nat :: 1 <= i <= n && m == MemberName(i)
  {
    var names := MemberNames(n);
    if m in names {
      var k :| 0 <= k < |names| && names[k] == m;
      assert m == MemberName(k + 1);
    }
    if i: nat :| 1 <= i <= n && m == MemberName(i) {
      assert names[i - 1] == m;
    }
  }

  lemma SeenIsTold(env: Env, patch: string, dir: set<string>, n: nat, told: string -> string, seen: map<string, string>)
    requires Tells(env, patch, dir, n, told) && ObservedOver(env, patch, dir, seen)
    ensures forall m :: m in MemberNames(n) ==> m in seen && seen[m] == told(m)
  {
    var t: nat :| ObservedAt(env, patch, dir, seen, t);
    forall m | m in MemberNames(n) ensures m in seen && seen[m] == told(m) {
      assert Reads(env, env.observe(TreeFor(patch), dir, t).value, m, told);
    }
  }

  /** With a reference fix and an observer that tells of the generated members: a run over a
      bound fails exactly when candidate and reference differ on a member within it, is
      undecided as truncated exactly when they agree so far and the class goes on, and passes
      exactly when they agree and that is all of it. What has no replays is an error. */
  lemma VerdictIff(env: Env, bound: int, fc: Class, before: set<string>, reference: string, candidate: string,
                   sanitizer: string, ref: string -> string, cand: string -> string,
                   p: Option<Replays>, r: Result<Gate.StageResult, string>)
    requires fc.observer != "" && reference != ""
    requires TellsOfRun(env, bound, fc, before, reference, candidate, ref, cand)
    requires Answered(env, bound, Some(fc), before, reference, candidate, sanitizer, p, r)
    ensures r.Err? <==> p.None?
    ensures r.Ok? ==>
              var n := if 0 < bound < fc.size then bound else fc.size;
              && (r.value.outcome.Failed? <==> !AllAgree(ref, cand, n))
              && (r.value.outcome.Undecided? <==> AllAgree(ref, cand, n) && n < fc.size)
              && (r.value.outcome.Passed? <==> AllAgree(ref, cand, n) && n == fc.size)
              && r.value.reason == (if r.value.outcome.Failed? then "class-replay-fail"
                                    else if r.value.outcome.Undecided? then "class-truncated" else "")
  {
    if p.Some? {
      var n := Bound(bound, fc.size);
      SeenIsTold(env, reference, DirWith(before, n), n, ref, p.value.ref);
      SeenIsTold(env, candidate, DirWith(before, n), n, cand, p.value.cand);
      DivergesIff(p.value, n, ref, cand);
    }
  }

  lemma DivergesIff(p: Replays, n: nat, ref: string -> string, cand: string -> string)
    requires p.members == MemberNames(n)
    requires forall m :: m in p.members ==> m in p.ref && p.ref[m] == ref(m) && m in p.cand && p.cand[m] == cand(m)
    ensures (exists m :: m in p.members && Diverges(p, m)) <==> !AllAgree(ref, cand, n)
  {
    if m :| m in p.members && Diverges(p, m) {
      Members(n, m);
      var i: nat :| 1 <= i <= n && m == MemberName(i);
      assert !Agree(ref, cand, i);
    }
    if i: nat :| 1 <= i <= n && !Agree(ref, cand, i) {
      Members(n, MemberName(i));
      assert Diverges(p, MemberName(i));
    }
  }

  /** A divergence found in part of a class is found in every larger part of it: once a
      bound yields class-replay-fail, no larger bound that can be run gives another answer.
      The two runs have members directories of their own, and the observer tells each run of
      the members generated for it. */
  lemma FailurePersists(env: Env, small: int, large: int, fc: Class, dir: set<string>, dir': set<string>,
                        reference: string, candidate: string, sanitizer: string,
                        ref: string -> string, cand: string -> string,
                        p: Option<Replays>, r: Result<Gate.StageResult, string>,
                        q: Option<Replays>, s: Result<Gate.StageResult, string>)
    requires fc.observer != "" && reference != "" && Bound(small, fc.size) <= Bound(large, fc.size)
    requires TellsOfRun(env, small, fc, dir, reference, candidate, ref, cand)
    requires TellsOfRun(env, large, fc, dir', reference, candidate, ref, cand)
    requires Answered(env, small, Some(fc), dir, reference, candidate, sanitizer, p, r)
    requires Answered(env, large, Some(fc), dir', reference, candidate, sanitizer, q, s)
    ensures r.Ok? && r.value.reason == CLASS_REPLAY_FAIL && s.Ok? ==>
              s.value.outcome == Gate.Failed && s.value.reason == CLASS_REPLAY_FAIL
  {
    VerdictIff(env, small, fc, dir, reference, candidate, sanitizer, ref, cand, p, r);
    VerdictIff(env, large, fc, dir', reference, candidate, sanitizer, ref, cand, q, s);
  }

  /* ---------- an observer that goes through its directory ---------- */

  /** Whenever the observer answers, it has a line for each file of the directory, and says
      of it what `told` does. */
  ghost predicate GoesThrough(env: Env, patch: string, dir: set<string>, told: string -> string) {
    forall t :: env.observe(TreeFor(patch), dir, t).Some? ==>
      var lines := Lines(env.observe(TreeFor(patch), dir, t).value);
      Consistent(lines, told) && Named(lines) == dir
  }

  /** Some order of the directory, one line for each file, as a shell loop prints it. */
  lemma LoopGoesThrough(env: Env, patch: string, dir: set<string>, told: string -> string)
    requires forall m :: m in dir ==> PlainName(m) && OneLine(told(m))
    requires forall t :: env.observe(TreeFor(patch), dir, t).Some? ==>
               exists listing :: (set m | m in listing) == dir &&
                                 env.observe(TreeFor(patch), dir, t).value == Report(listing, told)
    ensures GoesThrough(env, patch, dir, told)
  {
    forall t | env.observe(TreeFor(patch), dir, t).Some?
      ensures var lines := Lines(env.observe(TreeFor(patch), dir, t).value);
              Consistent(lines, told) && Named(lines) == dir
    {
      var listing :| (set m | m in listing) == dir &&
                     env.observe(TreeFor(patch), dir, t).value == Report(listing, told);
      assert forall m :: m in listing ==> m in (set m | m in listing);
      ReportSpeaksOfEach(listing, told);
    }
  }

  function Normalised(env: Env, told: string -> string): string -> string { m => env.normalise(told(m)) }

  /** Such an observer tells of the members of any run, however small its bound. */
  lemma GoingThroughTells(env: Env, patch: string, before: set<string>, n: nat, told: string -> string)
    requires GoesThrough(env, patch, DirWith(before, n), told)
    ensures Tells(env, patch, DirWith(before, n), n, Normalised(env, told))
  {
    var dir := DirWith(before, n);
    forall t, m | m in MemberNames(n) && env.observe(TreeFor(patch), dir, t).Some?
      ensures Reads(env, env.observe(TreeFor(patch), dir, t).value, m, Normalised(env, told))
    {
      ObservationsOfLines(Lines(env.observe(TreeFor(patch), dir, t).value), told, env.normalise);
    }
  }

  /** So for it the verdict of any run, truncated or not, is exactly the comparison of what
      it tells of the members within the bound. */
  lemma LoopVerdictIff(env: Env, bound: int, fc: Class, before: set<string>, reference: string, candidate: string,
                       sanitizer: string, ref: string -> string, cand: string -> string,
                       p: Option<Replays>, r: Result<Gate.StageResult, string>)
    requires fc.observer != "" && reference != ""
    requires var n := Bound(bound, fc.size);
             n > 0 ==> GoesThrough(env, reference, DirWith(before, n), ref) &&
                       GoesThrough(env, candidate, DirWith(before, n), cand)
    requires Answered(env, bound, Some(fc), before, reference, candidate, sanitizer, p, r)
    ensures r.Err? <==> p.None?
    ensures r.Ok? ==>
              var n := if 0 < bound < fc.size then bound else fc.size;
              var agree := AllAgree(Normalised(env, ref), Normalised(env, cand), n);
              r.value.outcome == if !agree then Gate.Failed else if n < fc.size then Gate.Undecided else Gate.Passed
  {
    var n := Bound(bound, fc.size);
    if n > 0 {
      GoingThroughTells(env, reference, before, n, ref);
      GoingThroughTells(env, candidate, before, n, cand);
    }
    VerdictIff(env, bound, fc, before, reference, candidate, sanitizer,
               Normalised(env, ref), Normalised(env, cand), p, r);
  }
}
