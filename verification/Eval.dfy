/** pkg/eval: scoring the gate against the answer key, one matrix for each stage. */
module Eval {
  import opened Text
  import opened Corpus
  import Gate

  datatype Label = Good | NotGood

  datatype Outcome = Outcome(mark: Label, expected: string, stages: seq<Gate.StageResult>)

  datatype Matrix = Matrix(
    stage: string,
    goodAccepted: nat, goodRejected: nat, badRejected: nat, badAccepted: nat,
    reasonMatched: nat, reasonMismatch: nat, undecidedInScope: nat,
    outOfScope: nat, unassigned: nat)

  function Zero(key: string): Matrix { Matrix(key, 0, 0, 0, 0, 0, 0, 0, 0, 0) }

  function StageOf(m: Matrix): string { m.stage }

  /** The name of a stage in the reason vocabulary; M3 keeps its own name. */
  function StageKey(name: string): string {
    if name == "patch-effect" then STAGE_M0
    else if name == "revert-to-attribute" then STAGE_M1
    else if name == "class-replay" then STAGE_M2
    else name
  }

  /** The stage the key holds answerable for a candidate. */
  function Responsible(o: Outcome): string { if o.expected == "" then "" else StageFor(o.expected) }

  /** One stage result of one candidate. */
  datatype Pair = Pair(outcome: Outcome, result: Gate.StageResult)

  function KeyOf(p: Pair): string { StageKey(p.result.stage) }

  datatype Cell = GoodAccepted | GoodRejected | Unassigned | OutOfScope | BadRejected | UndecidedInScope | BadAccepted

  /** The one cell a stage result is counted in. */
  function CellOf(p: Pair): Cell {
    if p.outcome.mark.Good? then (if p.result.outcome.Passed? then GoodAccepted else GoodRejected)
    else if Responsible(p.outcome) == UNASSIGNED then Unassigned
    else if Responsible(p.outcome) != KeyOf(p) then OutOfScope
    else if p.result.outcome.Failed? then BadRejected
    else if p.result.outcome.Undecided? then UndecidedInScope
    else BadAccepted
  }

  predicate Caught(p: Pair) { CellOf(p) in {BadRejected, UndecidedInScope} }

  /* ---------- counting ---------- */

  function Count(pairs: seq<Pair>, test: Pair -> bool): nat {
    if pairs == [] then 0
    else Count(pairs[..|pairs| - 1], test) + if test(pairs[|pairs| - 1]) then 1 else 0
  }

  function In(key: string, cell: Cell): Pair -> bool { (p: Pair) => KeyOf(p) == key && CellOf(p) == cell }

  function Of(key: string): Pair -> bool { (p: Pair) => KeyOf(p) == key }

  function ForReason(key: string, matched: bool): Pair -> bool {
    (p: Pair) => KeyOf(p) == key && Caught(p) && (p.result.reason == p.outcome.expected) == matched
  }

  /** A stage's matrix: each cell the number of the stage's results that belong in it. */
  function Tally(pairs: seq<Pair>, key: string): Matrix {
    Matrix(key,
      Count(pairs, In(key, GoodAccepted)), Count(pairs, In(key, GoodRejected)),
      Count(pairs, In(key, BadRejected)), Count(pairs, In(key, BadAccepted)),
      Count(pairs, ForReason(key, true)), Count(pairs, ForReason(key, false)),
      Count(pairs, In(key, UndecidedInScope)),
      Count(pairs, In(key, OutOfScope)), Count(pairs, In(key, Unassigned)))
  }

  function PairsOf(o: Outcome): seq<Pair> { seq(|o.stages|, i requires 0 <= i < |o.stages| => Pair(o, o.stages[i])) }

  function Flat(outcomes: seq<Outcome>): seq<Pair> {
    if outcomes == [] then [] else Flat(outcomes[..|outcomes| - 1]) + PairsOf(outcomes[|outcomes| - 1])
  }

  /** One more result moves its own stage's matrix, by one cell, and no other. */
  function Bump(m: Matrix, p: Pair): Matrix {
    var reasons := if p.result.reason == p.outcome.expected then m.(reasonMatched := m.reasonMatched + 1)
                   else m.(reasonMismatch := m.reasonMismatch + 1);
    match CellOf(p)
    case GoodAccepted => m.(goodAccepted := m.goodAccepted + 1)
    case GoodRejected => m.(goodRejected := m.goodRejected + 1)
    case Unassigned => m.(unassigned := m.unassigned + 1)
    case OutOfScope => m.(outOfScope := m.outOfScope + 1)
    case BadRejected => reasons.(badRejected := m.badRejected + 1)
    case UndecidedInScope => reasons.(undecidedInScope := m.undecidedInScope + 1)
    case BadAccepted => m.(badAccepted := m.badAccepted + 1)
  }

  lemma CountGrows(pairs: seq<Pair>, p: Pair, test: Pair -> bool)
    ensures Count(pairs + [p], test) == Count(pairs, test) + if test(p) then 1 else 0
  {
    assert (pairs + [p])[..|pairs|] == pairs;
  }

  lemma TallyGrows(pairs: seq<Pair>, p: Pair, key: string)
    ensures Tally(pairs + [p], key) == if KeyOf(p) == key then Bump(Tally(pairs, key), p) else Tally(pairs, key)
  {
    CountGrows(pairs, p, In(key, GoodAccepted));
    CountGrows(pairs, p, In(key, GoodRejected));
    CountGrows(pairs, p, In(key, BadRejected));
    CountGrows(pairs, p, In(key, BadAccepted));
    CountGrows(pairs, p, ForReason(key, true));
    CountGrows(pairs, p, ForReason(key, false));
    CountGrows(pairs, p, In(key, UndecidedInScope));
    CountGrows(pairs, p, In(key, OutOfScope));
    CountGrows(pairs, p, In(key, Unassigned));
  }

  /** Nothing is lost and nothing counted twice: the seven cells of a matrix add up to the
      results recorded under its stage, and every bad candidate it caught, or left
      undecided, was caught for the expected reason or another. */
  lemma {:induction false} ScoreConserves(pairs: seq<Pair>, key: string)
    ensures var m := Tally(pairs, key);
            && m.goodAccepted + m.goodRejected + m.unassigned + m.outOfScope + m.badRejected
               + m.undecidedInScope + m.badAccepted == Count(pairs, Of(key))
            && m.reasonMatched + m.reasonMismatch == m.badRejected + m.undecidedInScope
  {
    if pairs != [] {
      var init, last := pairs[..|pairs| - 1], pairs[|pairs| - 1];
      assert pairs == init + [last];
      ScoreConserves(init, key);
      TallyGrows(init, last, key);
      CountGrows(init, last, Of(key));
    }
  }

  /** The reason vocabulary holds some stage of this key answerable. */
  ghost predicate Answerable(key: string) { exists o: Outcome :: Responsible(o) == key && key != UNASSIGNED }

  /** No bad candidate was in scope for the stage. */
  predicate NoneInScope(m: Matrix) {
    m.badRejected == m.undecidedInScope == m.badAccepted == m.reasonMatched == m.reasonMismatch == 0
  }

  lemma {:induction false} UnanswerableSeesNone(pairs: seq<Pair>, key: string)
    requires !Answerable(key)
    ensures NoneInScope(Tally(pairs, key))
  {
    if pairs != [] {
      var init, last := pairs[..|pairs| - 1], pairs[|pairs| - 1];
      assert pairs == init + [last];
      UnanswerableSeesNone(init, key);
      TallyGrows(init, last, key);
      assert Responsible(last.outcome) != key || key == UNASSIGNED;
    }
  }

  lemma OneInScope(name: string, o: Outcome)
    requires o.mark.NotGood? && Responsible(o) == StageKey(name) != UNASSIGNED
    ensures !NoneInScope(Tally([Pair(o, Gate.StageResult(name, Gate.Passed, "", []))], StageKey(name)))
  {
    var p := Pair(o, Gate.StageResult(name, Gate.Passed, "", []));
    assert [p][..0] == [];
    assert Count([p], In(StageKey(name), BadAccepted)) == 1;
  }

  /** The keys a candidate can be answerable to: a stage that owns a reason, or "" while it is unclassified. */
  const OWNERS: set<string> := {"", STAGE_M0, STAGE_M1, STAGE_M2, STAGE_M3, STAGE_M5}

  function Expecting(reason: string): Outcome { Outcome(NotGood, reason, []) }

  lemma AnswerableIff(key: string)
    ensures Answerable(key) <==> key in OWNERS
  {
    assert Responsible(Expecting("")) == "" && Responsible(Expecting(EMPTY_PATCH)) == STAGE_M0;
    assert Responsible(Expecting(REVERT_ATTRIBUTE_FAIL)) == STAGE_M1;
    assert Responsible(Expecting(CLASS_REPLAY_FAIL)) == STAGE_M2;
    assert Responsible(Expecting(NEW_TEST_FAILURE)) == STAGE_M3;
    assert Responsible(Expecting(NONDETERMINISTIC)) == STAGE_M5;
  }

  /** A bad candidate can be in scope for a stage exactly if the stage's key is one of these. */
  lemma InScopeIffAnswerable(name: string)
    ensures StageKey(name) in OWNERS <==> exists pairs :: !NoneInScope(Tally(pairs, StageKey(name)))
  {
    var key := StageKey(name);
    AnswerableIff(key);
    if Answerable(key) {
      var o: Outcome :| Responsible(o) == key && key != UNASSIGNED;
      OneInScope(name, o.(mark := NotGood));
    } else {
      forall pairs ensures NoneInScope(Tally(pairs, key)) {
        UnanswerableSeesNone(pairs, key);
      }
    }
  }

  /** The name of M3 is not mapped to its key in the vocabulary, so the matrix reported for
      M3 never has a bad candidate in scope, whatever M3 does. */
  lemma SanitizerIsNeverAnswerable(outcomes: seq<Outcome>)
    ensures NoneInScope(Tally(Flat(outcomes), StageKey("sanitizer-gated-reachability")))
  {
    UnanswerableSeesNone(Flat(outcomes), StageKey("sanitizer-gated-reachability"));
  }

  /* ---------- the loops ---------- */

  /** The stages that appear. */
  ghost predicate Observed(pairs: seq<Pair>, key: string) { exists p :: p in pairs && KeyOf(p) == key }

  type Table = map<string, Matrix>

  ghost predicate Holds(table: Table, pairs: seq<Pair>) {
    forall k :: k in table ==> table[k] == Tally(pairs, k)
  }

  function Ensure(table: Table, key: string): Table { if key in table then table else table[key := Zero(key)] }

  /** Every stage that ran, so that a stage with nothing in scope still reports. */
  method Register(outcomes: seq<Outcome>) returns (table: Table)
    ensures forall k :: k in table <==> Observed(Flat(outcomes), k)
    ensures forall k :: k in table ==> table[k] == Zero(k)
  {
    table := map[];
    for i := 0 to |outcomes|
      invariant forall k :: k in table <==> Observed(Flat(outcomes[..i]), k)
      invariant forall k :: k in table ==> table[k] == Zero(k)
    {
      assert outcomes[..i + 1][..i] == outcomes[..i];
      table := RegisterOne(table, Flat(outcomes[..i]), outcomes[i]);
    }
    assert outcomes[..|outcomes|] == outcomes;
  }

  method RegisterOne(before: Table, ghost pairs: seq<Pair>, o: Outcome) returns (table: Table)
    requires forall k :: k in before <==> Observed(pairs, k)
    requires forall k :: k in before ==> before[k] == Zero(k)
    ensures forall k :: k in table <==> Observed(pairs + PairsOf(o), k)
    ensures forall k :: k in table ==> table[k] == Zero(k)
  {
    table := before;
    for j := 0 to |o.stages|
      invariant forall k :: k in table <==> Observed(pairs + PairsOf(o)[..j], k)
      invariant forall k :: k in table ==> table[k] == Zero(k)
    {
      ObservedGrows(pairs, o, j);
      table := Ensure(table, StageKey(o.stages[j].stage));
    }
    assert PairsOf(o)[..|o.stages|] == PairsOf(o);
  }

  lemma ObservedGrows(pairs: seq<Pair>, o: Outcome, j: nat)
    requires j < |o.stages|
    ensures pairs + PairsOf(o)[..j + 1] == (pairs + PairsOf(o)[..j]) + [Pair(o, o.stages[j])]
    ensures forall k :: Observed(pairs + PairsOf(o)[..j + 1], k) <==>
              Observed(pairs + PairsOf(o)[..j], k) || k == StageKey(o.stages[j].stage)
  {
    var before, p := pairs + PairsOf(o)[..j], Pair(o, o.stages[j]);
    assert pairs + PairsOf(o)[..j + 1] == before + [p];
    forall k ensures Observed(before + [p], k) <==> Observed(before, k) || k == KeyOf(p) {
      OneMoreObserved(before, p, k);
    }
  }

  lemma OneMoreObserved(pairs: seq<Pair>, p: Pair, k: string)
    ensures Observed(pairs + [p], k) <==> Observed(pairs, k) || k == KeyOf(p)
  {
    assert (pairs + [p])[|pairs|] == p;
    if Observed(pairs, k) {
      var x :| x in pairs && KeyOf(x) == k;
      assert x in pairs + [p];
    }
    if Observed(pairs + [p], k) {
      var x :| x in pairs + [p] && KeyOf(x) == k;
      assert x in pairs || x == p;
    }
  }

  /** The switch: which cell of its stage's matrix a result goes into. */
  method CountInto(before: Matrix, o: Outcome, sr: Gate.StageResult, resp: string, key: string) returns (m: Matrix)
    requires resp == Responsible(o) && key == StageKey(sr.stage)
    ensures m == Bump(before, Pair(o, sr))
  {
    m := before;
    if o.mark.Good? {
      if sr.outcome.Passed? {
        m := m.(goodAccepted := m.goodAccepted + 1);
      } else {
        m := m.(goodRejected := m.goodRejected + 1);
      }
    } else if resp == UNASSIGNED {
      m := m.(unassigned := m.unassigned + 1);
    } else if resp != key {
      m := m.(outOfScope := m.outOfScope + 1);
    } else if sr.outcome.Failed? {
      m := m.(badRejected := m.badRejected + 1);
      m := if sr.reason == o.expected then m.(reasonMatched := m.reasonMatched + 1)
          else m.(reasonMismatch := m.reasonMismatch + 1);
    } else if sr.outcome.Undecided? {
      m := m.(undecidedInScope := m.undecidedInScope + 1);
      m := if sr.reason == o.expected then m.(reasonMatched := m.reasonMatched + 1)
          else m.(reasonMismatch := m.reasonMismatch + 1);
    } else {
      m := m.(badAccepted := m.badAccepted + 1);
    }
  }

  /** One candidate's results, each into the matrix of its stage. */
  method ScoreOne(before: Table, ghost pairs: seq<Pair>, o: Outcome) returns (table: Table)
    requires Holds(before, pairs) && forall s :: s in o.stages ==> StageKey(s.stage) in before
    ensures table.Keys == before.Keys && Holds(table, pairs + PairsOf(o))
  {
    table := before;
    var resp := if o.expected == "" then "" else StageFor(o.expected);
    assert PairsOf(o)[..0] == [] && pairs + [] == pairs;
    for j := 0 to |o.stages|
      invariant table.Keys == before.Keys && Holds(table, pairs + PairsOf(o)[..j])
    {
      var sr := o.stages[j];
      ghost var p := Pair(o, sr);
      var key := StageKey(sr.stage);
      ObservedGrows(pairs, o, j);
      forall k | k in table ensures Tally(pairs + PairsOf(o)[..j + 1], k) == if k == key then Bump(table[k], p)
          else table[k] {
        TallyGrows(pairs + PairsOf(o)[..j], p, k);
      }
      var m := CountInto(table[key], o, sr, resp, key);
      table := table[key := m];
    }
    assert PairsOf(o)[..|o.stages|] == PairsOf(o);
  }

  /** What a score is: a matrix for each stage that appears, in order of their names. */
  ghost predicate IsScore(out: seq<Matrix>, outcomes: seq<Outcome>) {
    && StrictlySorted(out, StageOf)
    && (forall k :: Observed(Flat(outcomes), k) <==> exists i :: 0 <= i < |out| && out[i].stage == k)
    && (forall i :: 0 <= i < |out| ==> out[i] == Tally(Flat(outcomes), out[i].stage))
  }

  lemma {:induction false} EveryStageObserved(outcomes: seq<Outcome>, i: nat, s: Gate.StageResult)
    requires i < |outcomes| && s in outcomes[i].stages
    ensures Observed(Flat(outcomes), StageKey(s.stage))
  {
    var init, last := outcomes[..|outcomes| - 1], outcomes[|outcomes| - 1];
    if i < |init| {
      EveryStageObserved(init, i, s);
      var p :| p in Flat(init) && KeyOf(p) == StageKey(s.stage);
      assert p in Flat(outcomes);
    } else {
      var j :| 0 <= j < |last.stages| && last.stages[j] == s;
      assert PairsOf(last)[j] == Pair(last, s);
      assert Pair(last, s) in Flat(outcomes);
    }
  }

  /** Score */
  method Score(outcomes: seq<Outcome>) returns (out: seq<Matrix>)
    ensures IsScore(out, outcomes)
  {
    var table := Register(outcomes);
    ghost var keys := table.Keys;
    for i := 0 to |outcomes|
      invariant table.Keys == keys && Holds(table, Flat(outcomes[..i]))
    {
      assert outcomes[..i + 1][..i] == outcomes[..i];
      forall s | s in outcomes[i].stages ensures StageKey(s.stage) in table {
        EveryStageObserved(outcomes, i, s);
      }
      table := ScoreOne(table, Flat(outcomes[..i]), outcomes[i]);
    }
    assert outcomes[..|outcomes|] == outcomes;
    var listed := ListValues(table);
    out := SortBy(listed, StageOf);
    SortedValues(table, listed, out);
    forall i | 0 <= i < |out| ensures out[i] == Tally(Flat(outcomes), out[i].stage) {
      assert out[i] in out;
    }
    forall k ensures k in table <==> exists i :: 0 <= i < |out| && out[i].stage == k {
      if k in table {
        assert table[k] in out;
      }
      if i :| 0 <= i < |out| && out[i].stage == k {
        assert out[i] in out;
      }
    }
  }

  /** Going through a map in no particular order. */
  method ListValues(table: Table) returns (listed: seq<Matrix>)
    requires forall k :: k in table ==> table[k].stage == k
    ensures DistinctKeys(listed, StageOf)
    ensures forall m :: m in listed <==> m.stage in table && table[m.stage] == m
  {
    listed := [];
    var rest := table.Keys;
    while rest != {}
      invariant rest <= table.Keys && DistinctKeys(listed, StageOf)
      invariant forall m :: m in listed <==> m.stage in table && m.stage !in rest && table[m.stage] == m
    {
      var k :| k in rest;
      listed := listed + [table[k]];
      rest := rest - {k};
    }
  }

  lemma SortedValues(table: Table, listed: seq<Matrix>, out: seq<Matrix>)
    requires DistinctKeys(listed, StageOf) && out == SortBy(listed, StageOf)
    requires forall m :: m in listed <==> m.stage in table && table[m.stage] == m
    ensures StrictlySorted(out, StageOf)
    ensures forall m :: m in out <==> m.stage in table && table[m.stage] == m
  {
    SortBySorted(listed, StageOf);
    DistinctKeysPermute(listed, out, StageOf);
    SortedDistinctIsStrict(out, StageOf);
    forall m ensures m in out <==> m in listed {
      assert m in out <==> m in multiset(out);
      assert m in listed <==> m in multiset(listed);
    }
  }

  /* ---------- what the numbers of a score are ---------- */

  /** Where a result is: which candidate, and which of its stages. */
  datatype Spot = Spot(i: nat, j: nat)

  ghost function Places(outcomes: seq<Outcome>, test: Pair -> bool): set<Spot> {
    set i: nat, j: nat | i < |outcomes| && j < |outcomes[i].stages| && test(Pair(outcomes[i], outcomes[i].stages[j]))
      :: Spot(i, j)
  }

  ghost function PlacesOf(o: Outcome, n: nat, i: nat, test: Pair -> bool): set<Spot>
    requires n <= |o.stages|
  {
    set j: nat | j < n && test(Pair(o, o.stages[j])) :: Spot(i, j)
  }

  lemma PlacesOfGrow(o: Outcome, n: nat, i: nat, test: Pair -> bool)
    requires n < |o.stages|
    ensures |PlacesOf(o, n + 1, i, test)| == |PlacesOf(o, n, i, test)| + if test(Pair(o, o.stages[n])) then 1 else 0
  {
    var before := PlacesOf(o, n, i, test);
    assert Spot(i, n) !in before;
    assert PlacesOf(o, n + 1, i, test) == before + if test(Pair(o, o.stages[n])) then {Spot(i, n)} else {};
  }

  lemma {:induction false} CountOfOne(o: Outcome, n: nat, i: nat, test: Pair -> bool)
    requires n <= |o.stages|
    ensures Count(PairsOf(o)[..n], test) == |PlacesOf(o, n, i, test)|
  {
    if n > 0 {
      CountOfOne(o, n - 1, i, test);
      PlacesOfGrow(o, n - 1, i, test);
      assert PairsOf(o)[..n] == PairsOf(o)[..n - 1] + [Pair(o, o.stages[n - 1])];
      CountGrows(PairsOf(o)[..n - 1], Pair(o, o.stages[n - 1]), test);
    }
  }

  lemma PlacesGrow(outcomes: seq<Outcome>, last: Outcome, test: Pair -> bool)
    ensures |Places(outcomes + [last], test)| ==
            |Places(outcomes, test)| + |PlacesOf(last, |last.stages|, |outcomes|, test)|
  {
    var n, longer := |outcomes|, outcomes + [last];
    var before, more, all := Places(outcomes, test), PlacesOf(last, |last.stages|, n, test), Places(longer, test);
    assert longer[n] == last && forall i :: 0 <= i < n ==> longer[i] == outcomes[i];
    forall x: Spot ensures x in all <==> x in before || x in more {
      IsPlace(longer, test, x);
      if x.i < n {
        IsPlace(outcomes, test, x);
      }
    }
    assert all == before + more && before !! more;
  }

  lemma IsPlace(outcomes: seq<Outcome>, test: Pair -> bool, x: Spot)
    ensures x in Places(outcomes, test) <==>
            && x.i < |outcomes| && x.j < |outcomes[x.i].stages|
            && test(Pair(outcomes[x.i], outcomes[x.i].stages[x.j]))
  {
  }

  lemma {:induction false} CountOfAll(outcomes: seq<Outcome>, test: Pair -> bool)
    ensures Count(Flat(outcomes), test) == |Places(outcomes, test)|
  {
    if outcomes == [] {
      assert Places(outcomes, test) == {};
    } else {
      var init, last := outcomes[..|outcomes| - 1], outcomes[|outcomes| - 1];
      assert outcomes == init + [last];
      CountOfAll(init, test);
      CountConcat(Flat(init), PairsOf(last), test);
      CountOfOne(last, |last.stages|, |init|, test);
      assert PairsOf(last)[..|last.stages|] == PairsOf(last);
      PlacesGrow(init, last, test);
    }
  }

  /** What a stage is called in the vocabulary. */
  predicate KnownAs(name: string, key: string) {
    && (name == "patch-effect" ==> key == "m0-patch-effect")
    && (name == "revert-to-attribute" ==> key == "m1-revert-to-attribute")
    && (name == "class-replay" ==> key == "m2-class-replay")
    && (name !in {"patch-effect", "revert-to-attribute", "class-replay"} ==> key == name)
  }

  /** The stage that answers for a candidate; an unclassified candidate has "". */
  predicate Owes(o: Outcome, key: string) {
    && (key == "" <==> o.expected == "")
    && (key == "m0-patch-effect" <==> o.expected == "empty-patch")
    && (key == "m1-revert-to-attribute" <==> o.expected in {"pov-not-reproduced", "patch-does-not-apply",
         "revert-attribute-fail", "pov-site-undetermined"})
    && (key == "m2-class-replay" <==> o.expected in {"class-replay-fail", "class-not-defined",
         "unadjudicated-behaviour-change", "class-no-reference", "class-truncated", "class-observer-missing"})
    && (key == "m3-sanitizer-reachability" <==> o.expected in {"new-sanitizer-finding", "new-test-failure"})
    && (key == "m5-non-determinism" <==> o.expected == "nondeterministic")
    && key in {"", "m0-patch-effect", "m1-revert-to-attribute", "m2-class-replay", "m3-sanitizer-reachability",
         "m5-non-determinism", "unassigned"}
  }

  lemma OnlyOneName(name: string, key: string)
    ensures KnownAs(name, key) <==> key == StageKey(name)
  {
  }

  lemma OnlyOneOwner(o: Outcome, key: string)
    ensures Owes(o, key) <==> key == Responsible(o)
  {
  }

  /** A result of a candidate that is not good, under the stage that answers for it. */
  predicate InScope(p: Pair, key: string) {
    p.outcome.mark.NotGood? && KnownAs(p.result.stage, key) && Owes(p.outcome, key) && key != "unassigned"
  }

  ghost function SizeOf(outcomes: seq<Outcome>, test: Pair -> bool): nat { |Places(outcomes, test)| }

  /** Each number of a stage's matrix is the number of results it says it is. */
  ghost predicate GoodNumbers(m: Matrix, outcomes: seq<Outcome>) {
    var key := m.stage;
    && m.goodAccepted == SizeOf(outcomes, (p: Pair) =>
         KnownAs(p.result.stage, key) && p.outcome.mark.Good? && p.result.outcome.Passed?)
    && m.goodRejected == SizeOf(outcomes, (p: Pair) =>
         KnownAs(p.result.stage, key) && p.outcome.mark.Good? && !p.result.outcome.Passed?)
  }

  ghost predicate BadNumbers(m: Matrix, outcomes: seq<Outcome>) {
    var key := m.stage;
    && m.badRejected == SizeOf(outcomes, (p: Pair) => InScope(p, key) && p.result.outcome.Failed?)
    && m.undecidedInScope == SizeOf(outcomes, (p: Pair) => InScope(p, key) && p.result.outcome.Undecided?)
    && m.badAccepted == SizeOf(outcomes, (p: Pair) =>
         InScope(p, key) && !p.result.outcome.Failed? && !p.result.outcome.Undecided?)
  }

  ghost predicate ReasonNumbers(m: Matrix, outcomes: seq<Outcome>) {
    var key := m.stage;
    && m.reasonMatched == SizeOf(outcomes, (p: Pair) => InScope(p, key)
         && (p.result.outcome.Failed? || p.result.outcome.Undecided?) && p.result.reason == p.outcome.expected)
    && m.reasonMismatch == SizeOf(outcomes, (p: Pair) => InScope(p, key)
         && (p.result.outcome.Failed? || p.result.outcome.Undecided?) && p.result.reason != p.outcome.expected)
  }

  ghost predicate OtherNumbers(m: Matrix, outcomes: seq<Outcome>) {
    var key := m.stage;
    && m.unassigned == SizeOf(outcomes, (p: Pair) =>
         KnownAs(p.result.stage, key) && p.outcome.mark.NotGood? && Owes(p.outcome, "unassigned"))
    && m.outOfScope == SizeOf(outcomes, (p: Pair) => KnownAs(p.result.stage, key) && p.outcome.mark.NotGood?
         && !Owes(p.outcome, "unassigned") && !Owes(p.outcome, key))
  }

  lemma SameSize(outcomes: seq<Outcome>, a: Pair -> bool, b: Pair -> bool)
    requires forall p :: a(p) <==> b(p)
    ensures Count(Flat(outcomes), a) == SizeOf(outcomes, b)
  {
    CountOfAll(outcomes, a);
    assert Places(outcomes, a) == Places(outcomes, b);
  }

  lemma ScopeIs(p: Pair, key: string)
    ensures InScope(p, key) <==> p.outcome.mark.NotGood? && KeyOf(p) == key
                                 && Responsible(p.outcome) == key && key != UNASSIGNED
    ensures KnownAs(p.result.stage, key) <==> KeyOf(p) == key
    ensures Owes(p.outcome, key) <==> Responsible(p.outcome) == key
    ensures Owes(p.outcome, "unassigned") <==> Responsible(p.outcome) == UNASSIGNED
  {
    OnlyOneName(p.result.stage, key);
    OnlyOneOwner(p.outcome, key);
    OnlyOneOwner(p.outcome, "unassigned");
  }

  /** The cell of each result. */
  lemma CellIs(p: Pair, key: string)
    requires KnownAs(p.result.stage, key)
    ensures InScope(p, key) ==>
              CellOf(p) == if p.result.outcome.Failed? then BadRejected
                           else if p.result.outcome.Undecided? then UndecidedInScope else BadAccepted
    ensures CellOf(p) in {BadRejected, UndecidedInScope, BadAccepted} ==> InScope(p, key)
    ensures CellOf(p) == Unassigned <==> p.outcome.mark.NotGood? && Owes(p.outcome, "unassigned")
    ensures CellOf(p) == OutOfScope <==>
              p.outcome.mark.NotGood? && !Owes(p.outcome, "unassigned") && !Owes(p.outcome, key)
  {
    ScopeIs(p, key);
  }

  lemma OtherKey(p: Pair, key: string)
    requires !KnownAs(p.result.stage, key)
    ensures KeyOf(p) != key && !InScope(p, key)
  {
    ScopeIs(p, key);
  }

  /** What makes a result one of those that a number counts. */
  lemma CellsAre(p: Pair, key: string)
    ensures KnownAs(p.result.stage, key) <==> KeyOf(p) == key
    ensures In(key, BadRejected)(p) <==> InScope(p, key) && p.result.outcome.Failed?
    ensures In(key, UndecidedInScope)(p) <==> InScope(p, key) && p.result.outcome.Undecided?
    ensures In(key, BadAccepted)(p) <==> InScope(p, key) && !p.result.outcome.Failed? && !p.result.outcome.Undecided?
    ensures In(key, Unassigned)(p) <==>
              KnownAs(p.result.stage, key) && p.outcome.mark.NotGood? && Owes(p.outcome, "unassigned")
    ensures In(key, OutOfScope)(p) <==>
              && KnownAs(p.result.stage, key) && p.outcome.mark.NotGood?
              && !Owes(p.outcome, "unassigned") && !Owes(p.outcome, key)
  {
    ScopeIs(p, key);
    if KnownAs(p.result.stage, key) {
      CellIs(p, key);
    } else {
      OtherKey(p, key);
    }
  }

  lemma TallyGoodNumbers(outcomes: seq<Outcome>, key: string)
    ensures GoodNumbers(Tally(Flat(outcomes), key), outcomes)
  {
    forall p: Pair {
      CellsAre(p, key);
    }
    SameSize(outcomes, In(key, GoodAccepted), (p: Pair) =>
      KnownAs(p.result.stage, key) && p.outcome.mark.Good? && p.result.outcome.Passed?);
    SameSize(outcomes, In(key, GoodRejected), (p: Pair) =>
      KnownAs(p.result.stage, key) && p.outcome.mark.Good? && !p.result.outcome.Passed?);
  }

  lemma TallyBadNumbers(outcomes: seq<Outcome>, key: string)
    ensures BadNumbers(Tally(Flat(outcomes), key), outcomes)
  {
    forall p: Pair {
      CellsAre(p, key);
    }
    SameSize(outcomes, In(key, BadRejected), (p: Pair) => InScope(p, key) && p.result.outcome.Failed?);
    SameSize(outcomes, In(key, UndecidedInScope), (p: Pair) => InScope(p, key) && p.result.outcome.Undecided?);
    SameSize(outcomes, In(key, BadAccepted), (p: Pair) =>
      InScope(p, key) && !p.result.outcome.Failed? && !p.result.outcome.Undecided?);
  }

  lemma TallyReasonNumbers(outcomes: seq<Outcome>, key: string)
    ensures ReasonNumbers(Tally(Flat(outcomes), key), outcomes)
  {
    forall p: Pair {
      CellsAre(p, key);
    }
    SameSize(outcomes, ForReason(key, true), (p: Pair) => InScope(p, key)
      && (p.result.outcome.Failed? || p.result.outcome.Undecided?) && p.result.reason == p.outcome.expected);
    SameSize(outcomes, ForReason(key, false), (p: Pair) => InScope(p, key)
      && (p.result.outcome.Failed? || p.result.outcome.Undecided?) && p.result.reason != p.outcome.expected);
  }

  lemma TallyOtherNumbers(outcomes: seq<Outcome>, key: string)
    ensures OtherNumbers(Tally(Flat(outcomes), key), outcomes)
  {
    forall p: Pair {
      CellsAre(p, key);
    }
    SameSize(outcomes, In(key, Unassigned), (p: Pair) =>
      KnownAs(p.result.stage, key) && p.outcome.mark.NotGood? && Owes(p.outcome, "unassigned"));
    SameSize(outcomes, In(key, OutOfScope), (p: Pair) => KnownAs(p.result.stage, key) && p.outcome.mark.NotGood?
      && !Owes(p.outcome, "unassigned") && !Owes(p.outcome, key));
  }

  ghost predicate Numbers(m: Matrix, outcomes: seq<Outcome>) {
    GoodNumbers(m, outcomes) && BadNumbers(m, outcomes) && ReasonNumbers(m, outcomes) && OtherNumbers(m, outcomes)
  }

  /** A score, number by number: a matrix for each stage that ran, in order of their names,
      and in it how many results there are of each kind. */
  lemma ScoreNumbers(out: seq<Matrix>, outcomes: seq<Outcome>)
    requires IsScore(out, outcomes)
    ensures forall i :: 0 <= i < |out| ==> Numbers(out[i], outcomes)
    ensures forall i, j :: 0 <= i < j < |out| ==> Less(out[i].stage, out[j].stage)
    ensures forall i, r :: 0 <= i < |outcomes| && r in outcomes[i].stages ==>
              exists k :: 0 <= k < |out| && KnownAs(r.stage, out[k].stage)
  {
    forall i | 0 <= i < |out| ensures Numbers(out[i], outcomes) {
      TallyGoodNumbers(outcomes, out[i].stage);
      TallyBadNumbers(outcomes, out[i].stage);
      TallyReasonNumbers(outcomes, out[i].stage);
      TallyOtherNumbers(outcomes, out[i].stage);
    }
    forall i, r | 0 <= i < |outcomes| && r in outcomes[i].stages
      ensures exists k :: 0 <= k < |out| && KnownAs(r.stage, out[k].stage)
    {
      EveryStageObserved(outcomes, i, r);
      OnlyOneName(r.stage, StageKey(r.stage));
    }
  }

  /* ---------- the order of the candidates does not matter ---------- */

  function Total(outcomes: seq<Outcome>, test: Pair -> bool): nat {
    if outcomes == [] then 0 else Count(PairsOf(outcomes[0]), test) + Total(outcomes[1..], test)
  }

  lemma {:induction false} CountConcat(a: seq<Pair>, b: seq<Pair>, test: Pair -> bool)
    ensures Count(a + b, test) == Count(a, test) + Count(b, test)
  {
    if b == [] {
      assert a + b == a;
    } else {
      var init, last := b[..|b| - 1], b[|b| - 1];
      assert a + b == (a + init) + [last] && b == init + [last];
      CountConcat(a, init, test);
      CountGrows(a + init, last, test);
    }
  }

  lemma {:induction false} TotalConcat(a: seq<Outcome>, b: seq<Outcome>, test: Pair -> bool)
    ensures Total(a + b, test) == Total(a, test) + Total(b, test)
  {
    if a == [] {
      assert a + b == b;
    } else {
      assert (a + b)[1..] == a[1..] + b;
      TotalConcat(a[1..], b, test);
    }
  }

  lemma {:induction false} CountIsTotal(outcomes: seq<Outcome>, test: Pair -> bool)
    ensures Count(Flat(outcomes), test) == Total(outcomes, test)
  {
    if outcomes != [] {
      var init, last := outcomes[..|outcomes| - 1], outcomes[|outcomes| - 1];
      CountIsTotal(init, test);
      CountConcat(Flat(init), PairsOf(last), test);
      TotalConcat(init, [last], test);
      assert outcomes == init + [last] && [last][1..] == [];
    }
  }

  lemma {:induction false} TotalPermutes(s: seq<Outcome>, t: seq<Outcome>, test: Pair -> bool)
    requires multiset(s) == multiset(t)
    ensures Total(s, test) == Total(t, test)
  {
    if s == [] {
      assert |t| == |multiset(t)| == 0;
    } else {
      var k := PositionOf(t, s[0], s);
      SamePermutedRest(s, t, k);
      TotalPermutes(s[1..], t[..k] + t[k + 1..], test);
      TotalRemove(t, k, test);
    }
  }

  lemma {:induction false} TotalRemove(t: seq<Outcome>, k: nat, test: Pair -> bool)
    requires k < |t|
    ensures Total(t, test) == Count(PairsOf(t[k]), test) + Total(t[..k] + t[k + 1..], test)
  {
    var a, o, b := t[..k], t[k], t[k + 1..];
    TotalMiddle(a, o, b, test);
    assert t == a + ([o] + b);
  }

  lemma {:induction false} TotalMiddle(a: seq<Outcome>, o: Outcome, b: seq<Outcome>, test: Pair -> bool)
    ensures Total(a + ([o] + b), test) == Count(PairsOf(o), test) + Total(a + b, test)
  {
    TotalConcat(a, b, test);
    TotalConcat(a, [o] + b, test);
    assert ([o] + b)[1..] == b;
  }

  lemma CountPermutes(s: seq<Outcome>, t: seq<Outcome>, test: Pair -> bool)
    requires multiset(s) == multiset(t)
    ensures Count(Flat(s), test) == Count(Flat(t), test)
  {
    CountIsTotal(s, test);
    CountIsTotal(t, test);
    TotalPermutes(s, t, test);
  }

  lemma TallyPermutes(s: seq<Outcome>, t: seq<Outcome>, key: string)
    requires multiset(s) == multiset(t)
    ensures Tally(Flat(s), key) == Tally(Flat(t), key)
  {
    CountPermutes(s, t, In(key, GoodAccepted));
    CountPermutes(s, t, In(key, GoodRejected));
    CountPermutes(s, t, In(key, BadRejected));
    CountPermutes(s, t, In(key, BadAccepted));
    CountPermutes(s, t, ForReason(key, true));
    CountPermutes(s, t, ForReason(key, false));
    CountPermutes(s, t, In(key, UndecidedInScope));
    CountPermutes(s, t, In(key, OutOfScope));
    CountPermutes(s, t, In(key, Unassigned));
  }

  lemma {:induction false} ObservedIsCounted(pairs: seq<Pair>, key: string)
    ensures Observed(pairs, key) <==> Count(pairs, Of(key)) > 0
  {
    if pairs != [] {
      var init, last := pairs[..|pairs| - 1], pairs[|pairs| - 1];
      assert pairs == init + [last];
      ObservedIsCounted(init, key);
      assert forall p :: p in pairs <==> p in init || p == last;
    }
  }

  /** A score is the same list of matrices whatever order the candidates come in. */
  lemma ScoreIsOrderFree(s: seq<Outcome>, t: seq<Outcome>, a: seq<Matrix>, b: seq<Matrix>)
    requires multiset(s) == multiset(t) && IsScore(a, s) && IsScore(b, t)
    ensures a == b
  {
    forall k ensures Observed(Flat(s), k) <==> Observed(Flat(t), k) {
      ObservedIsCounted(Flat(s), k);
      ObservedIsCounted(Flat(t), k);
      CountPermutes(s, t, Of(k));
    }
    SameStages(s, t, a, b);
    SameStages(t, s, b, a);
    StrictIsDistinct(a, StageOf);
    StrictIsDistinct(b, StageOf);
    SameElementsPermute(a, b, StageOf);
    DistinctKeysPermute(a, a, StageOf);
    SortedIsUnique(a, b, StageOf);
  }

  lemma SameStages(s: seq<Outcome>, t: seq<Outcome>, a: seq<Matrix>, b: seq<Matrix>)
    requires multiset(s) == multiset(t) && IsScore(a, s) && IsScore(b, t)
    requires forall k :: Observed(Flat(s), k) <==> Observed(Flat(t), k)
    ensures forall m :: m in a ==> m in b
  {
    forall m | m in a ensures m in b {
      var i :| 0 <= i < |a| && a[i] == m;
      assert Observed(Flat(s), m.stage);
      var j :| 0 <= j < |b| && b[j].stage == m.stage;
      TallyPermutes(s, t, m.stage);
    }
  }
}
