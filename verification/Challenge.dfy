/** pkg/revert, challenge.go: driving a checkout through git and its own run.sh, and
    reading verdicts out of the output directories each invocation leaves behind.

    What the commands do is arbitrary: a machine that, given a command and the state of the
    world, answers and leaves another state. The clock lets it answer the same command
    differently each time. */
module Challenge {
  import opened Text
  import opened Corpus

  /** An output directory: its modification time, if it can be stat'ed, and its files. */
  datatype Dir = Dir(modified: Option<int>, files: map<string, string>)

  type Outputs = map<string, Dir>

  datatype World = World(outputs: Outputs, tree: string, clock: nat)

  datatype Command =
    | GitReset | GitClean | GitStatus | GitApply(patch: string)
    | ShBuild | ShPoV(blob: string, harness: string)

  datatype Reply = Reply(ok: bool, text: string)

  type Machine = (Command, World) -> (World, Reply)

  const BUILD := "build"
  const RUN_POV := "run_pov"
  const EXITCODE := "exitcode"
  const DEFAULT_SIGNAL := "stderr.log"
  const RUNNING := "Running: "

  /** What a case says about its proof of vulnerability. */
  datatype PoV = PoV(signal: string, expectedSanitizer: string, matchSite: string -> SiteMatch)

  /** One execution. The site is compared only if the sanitizer fired. */
  datatype PoVRun = PoVRun(harnessRan: bool, sanitizerFired: bool, site: Option<SiteMatch>, evidence: seq<string>)

  /* ---------- which directory speaks for a run ---------- */

  /** The directory has the name of this kind of run: filepath.Glob("*--kind"). */
  predicate OfKind(path: string, kind: string) {
    |path| >= |kind| + 2 && path[|path| - |kind| - 2..] == "--" + kind
  }

  /** The directories of this kind that were not there before and can be stat'ed. */
  function Fresh(before: Outputs, after: Outputs, kind: string): Outputs {
    map p | p in after && OfKind(p, kind) && p !in before && after[p].modified.Some? :: after[p]
  }

  ghost predicate Newest(made: Outputs, p: string)
    requires forall q :: q in made ==> made[q].modified.Some?
  {
    p in made && forall q :: q in made ==> made[q].modified.value <= made[p].modified.value
  }

  function Signal(pov: PoV): string { if pov.signal == "" then DEFAULT_SIGNAL else pov.signal }

  function ReadPoV(pov: PoV, p: string, dir: Dir): Option<PoVRun> {
    if Signal(pov) !in dir.files then None
    else
      var report := dir.files[Signal(pov)];
      var fired := Contains(report, pov.expectedSanitizer);
      Some(PoVRun(Contains(report, RUNNING), fired, if fired then Some(pov.matchSite(report)) else None,
                  ["run_pov output: " + p]))
  }

  predicate ExitedZero(dir: Dir) { EXITCODE in dir.files && TrimSpace(dir.files[EXITCODE]) == "0" }

  /* ---------- what happened ---------- */

  /** One operation on the checkout: what it was asked, what it answered, the directory it
      read, and the world before and after. */
  datatype Event =
    | Reset(ok: bool, status: Option<string>, before: World, after: World)
    | Applied(ok: bool, patch: string, before: World, after: World)
    | Built(ok: bool, shOk: bool, dir: Option<string>, before: World, after: World)
    | Ran(run: Option<PoVRun>, blob: string, harness: string, pov: PoV, dir: Option<string>, before: World,
        after: World)

  /** The three git commands of a reset, each only if the one before succeeded; the status
      if it came to be printed. */
  function ResetRun(machine: Machine, w: World): (World, Option<string>) {
    var hard := machine(GitReset, w);
    if !hard.1.ok then (hard.0, None)
    else
      var clean := machine(GitClean, hard.0);
      if !clean.1.ok then (clean.0, None)
      else
        var status := machine(GitStatus, clean.0);
        (status.0, if status.1.ok then Some(status.1.text) else None)
  }

  /** The machine did this, from that world, and left the other. */
  ghost predicate Caused(machine: Machine, e: Event) {
    match e
    case Reset(_, status, before, after) => (after, status) == ResetRun(machine, before)
    case Applied(ok, patch, before, after) =>
      after == machine(GitApply(patch), before).0 && ok == machine(GitApply(patch), before).1.ok
    case Built(_, shOk, _, before, after) => after == machine(ShBuild, before).0 &&
        shOk == machine(ShBuild, before).1.ok
    case Ran(_, blob, harness, _, _, before, after) => after == machine(ShPoV(blob, harness), before).0
  }

  /** The directory read is the newest of those the invocation made, and there is one
      exactly when the invocation made any. */
  ghost predicate ReadsNewest(before: Outputs, after: Outputs, kind: string, dir: Option<string>) {
    match dir
    case None => Fresh(before, after, kind) == map[]
    case Some(p) => Newest(Fresh(before, after, kind), p)
  }

  /** The answer follows from what the invocation left, and from nothing older. */
  ghost predicate Honest(e: Event) {
    match e
    case Reset(ok, status, _, _) => ok <==> status.Some? && TrimSpace(status.value) == ""
    case Applied(_, _, _, _) => true
    case Built(ok, shOk, dir, before, after) =>
      && (!shOk ==> dir.None?)
      && (shOk ==> ReadsNewest(before.outputs, after.outputs, BUILD, dir))
      && (ok <==> dir.Some? && ExitedZero(after.outputs[dir.value]))
    case Ran(run, _, _, pov, dir, before, after) =>
      && ReadsNewest(before.outputs, after.outputs, RUN_POV, dir)
      && run == if dir.None? then None else ReadPoV(pov, dir.value, after.outputs[dir.value])
  }

  ghost predicate Happened(machine: Machine, e: Event) { Caused(machine, e) && Honest(e) }

  /** The events lead from one world to the other, one after the other. */
  ghost predicate Chained(w: World, steps: seq<Event>, w': World) {
    if steps == [] then w == w'
    else Chained(w, steps[..|steps| - 1], steps[|steps| - 1].before) && steps[|steps| - 1].after == w'
  }

  lemma ChainGrows(w: World, steps: seq<Event>, e: Event)
    requires Chained(w, steps, e.before)
    ensures Chained(w, steps + [e], e.after)
  {
    assert (steps + [e])[..|steps|] == steps;
  }

  /** A check that did not happen: nothing was measured. */
  predicate Faulty(e: Event) {
    match e
    case Reset(ok, _, _, _) => !ok
    case Applied(_, _, _, _) => false
    case Built(ok, _, _, _, _) => !ok
    case Ran(run, _, _, _, _, _, _) => run.None? || !run.value.harnessRan
  }

  /** An operation and its arguments. */
  datatype Kind = DoReset | DoApply(patch: string) | DoBuild | DoRun(blob: string, harness: string, pov: PoV)

  function KindOf(e: Event): Kind {
    match e
    case Reset(_, _, _, _) => DoReset
    case Applied(_, patch, _, _) => DoApply(patch)
    case Built(_, _, _, _, _) => DoBuild
    case Ran(_, blob, harness, pov, _, _, _) => DoRun(blob, harness, pov)
  }

  /** Stale output is never an answer: whatever the directories that were already there
      held before the run or hold after it, the answer would have been the same. */
  lemma StaleOutputsAreIgnored(e: Event, before: World, after: World)
    requires Honest(e) && (e.Built? || e.Ran?)
    requires before.outputs.Keys == e.before.outputs.Keys
    requires forall p :: p !in before.outputs ==>
               (p in after.outputs <==> p in e.after.outputs) &&
                   (p in after.outputs ==> after.outputs[p] == e.after.outputs[p])
    ensures Honest(e.(before := before, after := after))
    ensures e.dir.Some? ==> e.dir.value !in e.before.outputs && e.dir.value in e.after.outputs
  {
    var kind := if e.Built? then BUILD else RUN_POV;
    assert Fresh(before.outputs, after.outputs, kind) == Fresh(e.before.outputs, e.after.outputs, kind);
  }

  /* ---------- the driver ---------- */

  datatype Stamp = Stamp(path: string, modified: int)

  ghost predicate Descending(es: seq<Stamp>) {
    forall i, j :: 0 <= i < j < |es| ==> es[i].modified >= es[j].modified
  }

  function Place(e: Stamp, es: seq<Stamp>): (r: seq<Stamp>)
    ensures multiset(r) == multiset{e} + multiset(es)
  {
    if es == [] || e.modified >= es[0].modified then [e] + es
    else
      assert es == [es[0]] + es[1..];
      [es[0]] + Place(e, es[1..])
  }

  /** sort.Slice with the later modification first. */
  function NewestFirst(es: seq<Stamp>): (r: seq<Stamp>)
    ensures multiset(r) == multiset(es)
  {
    if es == [] then []
    else
      assert es == [es[0]] + es[1..];
      Place(es[0], NewestFirst(es[1..]))
  }

  lemma {:induction false} PlaceDescends(e: Stamp, es: seq<Stamp>)
    requires Descending(es)
    ensures Descending(Place(e, es))
  {
    if es != [] && e.modified < es[0].modified {
      PlaceDescends(e, es[1..]);
      var rest := Place(e, es[1..]);
      forall j | 0 <= j < |rest| ensures es[0].modified >= rest[j].modified {
        assert rest[j] in multiset(rest);
        PlacedAmong(e, es[1..], rest[j]);
      }
      assert Place(e, es) == [es[0]] + rest;
    }
  }

  lemma PlacedAmong(e: Stamp, es: seq<Stamp>, x: Stamp)
    requires x in multiset(Place(e, es))
    ensures x == e || x in es
  {
    assert x in multiset{e} + multiset(es);
  }

  lemma {:induction false} NewestFirstDescends(es: seq<Stamp>)
    ensures Descending(NewestFirst(es))
  {
    if es != [] {
      NewestFirstDescends(es[1..]);
      PlaceDescends(es[0], NewestFirst(es[1..]));
    }
  }

  class Checkout {
    const machine: Machine
    var world: World

    constructor (machine: Machine, world: World)
      ensures this.machine == machine && this.world == world
    {
      this.machine := machine;
      this.world := world;
    }

    method Do(c: Command) returns (r: Reply)
      modifies this`world
      ensures (world, r) == machine(c, old(world))
    {
      var answer := machine(c, world);
      world, r := answer.0, answer.1;
    }

    method OutputSet(kind: string) returns (seen: set<string>)
      ensures forall p :: p in seen <==> p in world.outputs && OfKind(p, kind)
    {
      seen := {};
      var rest := world.outputs.Keys;
      while rest != {}
        invariant rest <= world.outputs.Keys
        invariant forall p :: p in seen <==> p in world.outputs && p !in rest && OfKind(p, kind)
      {
        var p :| p in rest;
        if OfKind(p, kind) {
          seen := seen + {p};
        }
        rest := rest - {p};
      }
    }

    /** The newest directory of this kind that is not in `before`. */
    method NewestOutput(kind: string, seen: set<string>, ghost before: Outputs) returns (dir: Option<string>)
      requires forall p :: p in seen <==> p in before && OfKind(p, kind)
      ensures ReadsNewest(before, world.outputs, kind, dir)
    {
      ghost var made := Fresh(before, world.outputs, kind);
      var es: seq<Stamp> := [];
      var rest := world.outputs.Keys;
      while rest != {}
        invariant rest <= world.outputs.Keys
        invariant forall e :: e in es <==>
                    (e.path !in rest && e.path in made && made[e.path].modified == Some(e.modified))
      {
        var p :| p in rest;
        if OfKind(p, kind) && p !in seen && world.outputs[p].modified.Some? {
          es := es + [Stamp(p, world.outputs[p].modified.value)];
        }
        rest := rest - {p};
      }
      forall p | p in made ensures Stamp(p, made[p].modified.value) in es {
      }
      if es == [] {
        assert made == map[];
        return None;
      }
      var sorted := NewestFirst(es);
      assert |sorted| == |multiset(sorted)| == |es|;
      NewestFirstDescends(es);
      dir := Some(sorted[0].path);
      HeadIsNewest(made, es, sorted);
    }

    /** Reset, clean, and then look: a tree that is still dirty is an error. */
    method ResetToPin() returns (ok: bool, ghost e: Event)
      modifies this
      ensures e.Reset? && e.ok == ok && e.before == old(world) && e.after == world && Happened(machine, e)
    {
      var status: Option<string> := None;
      var reply := Do(GitReset);
      if reply.ok {
        reply := Do(GitClean);
        if reply.ok {
          reply := Do(GitStatus);
          if reply.ok {
            status := Some(reply.text);
          }
        }
      }
      ok := status.Some? && TrimSpace(status.value) == "";
      e := Reset(ok, status, old(world), world);
    }

    method Apply(patch: string) returns (ok: bool, ghost e: Event)
      modifies this
      ensures e == Applied(ok, patch, old(world), world) && Happened(machine, e)
    {
      var reply := Do(GitApply(patch));
      ok := reply.ok;
      e := Applied(ok, patch, old(world), world);
    }

    /** The status is the recorded exit code, never that of run.sh. */
    method Build() returns (ok: bool, ghost e: Event)
      modifies this
      ensures e.Built? && e.ok == ok && e.before == old(world) && e.after == world && Happened(machine, e)
    {
      var seen := OutputSet(BUILD);
      var reply := Do(ShBuild);
      if !reply.ok {
        ok := false;
        e := Built(ok, false, None, old(world), world);
        return;
      }
      var dir := NewestOutput(BUILD, seen, old(world).outputs);
      ok := false;
      if dir.Some? && EXITCODE in world.outputs[dir.value].files {
        ok := TrimSpace(world.outputs[dir.value].files[EXITCODE]) == "0";
      }
      e := Built(ok, true, dir, old(world), world);
    }

    /** The verdict is in what the invocation recorded; its exit status is not looked at. */
    method RunPoV(blob: string, harness: string, pov: PoV) returns (run: Option<PoVRun>, ghost e: Event)
      modifies this
      ensures e.Ran? && KindOf(e) == DoRun(blob, harness, pov) && e.run == run
      ensures e.before == old(world) && e.after == world && Happened(machine, e)
    {
      var seen := OutputSet(RUN_POV);
      var _ := Do(ShPoV(blob, harness));
      var dir := NewestOutput(RUN_POV, seen, old(world).outputs);
      run := if dir.None? then None else ReadPoV(pov, dir.value, world.outputs[dir.value]);
      e := Ran(run, blob, harness, pov, dir, old(world), world);
    }
  }

  lemma HeadIsNewest(made: Outputs, es: seq<Stamp>, sorted: seq<Stamp>)
    requires forall p :: p in made ==> made[p].modified.Some?
    requires forall e :: e in es ==> e.path in made && made[e.path].modified == Some(e.modified)
    requires forall p :: p in made ==> Stamp(p, made[p].modified.value) in es
    requires multiset(sorted) == multiset(es) && Descending(sorted) && sorted != []
    ensures Newest(made, sorted[0].path)
  {
    assert sorted[0] in multiset(es);
    forall q | q in made ensures made[q].modified.value <= sorted[0].modified {
      assert Stamp(q, made[q].modified.value) in multiset(sorted);
    }
  }
}
