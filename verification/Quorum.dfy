/** Counting people: what the three signature loops of the repository have in common.
    Each entry of a signature file is skipped, bad, or signed by somebody. */
module Quorum {
  import opened Text

  datatype Judgement = Skip | Bad | SignedBy(who: string)

  function SignerOf(j: Judgement): seq<string> { if j.SignedBy? then [j.who] else [] }

  function Signers<T>(entries: seq<T>, judge: T -> Judgement): seq<string> {
    if entries == [] then [] else SignerOf(judge(entries[0])) + Signers(entries[1..], judge)
  }

  ghost predicate NoneBad<T>(entries: seq<T>, judge: T -> Judgement) {
    forall e :: e in entries ==> !judge(e).Bad?
  }

  /** Every entry that is not blank is good, no two are the same person, and there are
      enough of them. */
  ghost predicate Meets<T>(entries: seq<T>, judge: T -> Judgement, min: int) {
    && NoneBad(entries, judge)
    && DistinctKeys(Signers(entries, judge), Itself)
    && |Signers(entries, judge)| >= min
  }

  lemma {:induction false} SignersConcat<T>(a: seq<T>, b: seq<T>, judge: T -> Judgement)
    ensures Signers(a + b, judge) == Signers(a, judge) + Signers(b, judge)
  {
    if a == [] {
      assert a + b == b;
    } else {
      assert (a + b)[1..] == a[1..] + b;
      SignersConcat(a[1..], b, judge);
    }
  }

  lemma SignersOne<T>(e: T, judge: T -> Judgement)
    ensures Signers([e], judge) == SignerOf(judge(e))
  {
    assert [e][1..] == [];
  }

  lemma SignersMiddle<T>(a: seq<T>, e: T, b: seq<T>, judge: T -> Judgement)
    ensures Signers(a + ([e] + b), judge) == Signers(a, judge) + (SignerOf(judge(e)) + Signers(b, judge))
    ensures Signers(a + b, judge) == Signers(a, judge) + Signers(b, judge)
  {
    SignersConcat(a, [e] + b, judge);
    SignersConcat([e], b, judge);
    SignersOne(e, judge);
    SignersConcat(a, b, judge);
  }

  lemma MiddleOut(x: seq<string>, y: seq<string>, z: seq<string>)
    ensures multiset(x + (y + z)) == multiset(y) + multiset(x + z)
  {
  }

  lemma SignersRemove<T>(entries: seq<T>, judge: T -> Judgement, k: nat)
    requires k < |entries|
    ensures multiset(Signers(entries, judge)) ==
            multiset(SignerOf(judge(entries[k]))) + multiset(Signers(entries[..k] + entries[k + 1..], judge))
  {
    var a, e, b := entries[..k], entries[k], entries[k + 1..];
    assert entries == a + ([e] + b);
    SignersMiddle(a, e, b, judge);
    MiddleOut(Signers(a, judge), SignerOf(judge(e)), Signers(b, judge));
  }

  lemma {:induction false} SignersPermute<T>(s: seq<T>, t: seq<T>, judge: T -> Judgement)
    requires multiset(s) == multiset(t)
    ensures multiset(Signers(s, judge)) == multiset(Signers(t, judge))
  {
    if s == [] {
      assert |t| == |multiset(t)| == 0;
    } else {
      var k := PositionOf(t, s[0], s);
      var rest := t[..k] + t[k + 1..];
      SamePermutedRest(s, t, k);
      SignersPermute(s[1..], rest, judge);
      SignersRemove(t, judge, k);
    }
  }

  /** Reordering the entries of a signature file changes nothing. */
  lemma MeetsIsOrderFree<T>(s: seq<T>, t: seq<T>, judge: T -> Judgement, min: int)
    requires multiset(s) == multiset(t)
    ensures Meets(s, judge, min) <==> Meets(t, judge, min)
  {
    SignersPermute(s, t, judge);
    assert |Signers(s, judge)| == |multiset(Signers(s, judge))| == |Signers(t, judge)|;
    forall e ensures e in s <==> e in t {
      assert e in s <==> e in multiset(s);
      assert e in t <==> e in multiset(t);
    }
    if DistinctKeys(Signers(s, judge), Itself) {
      DistinctKeysPermute(Signers(s, judge), Signers(t, judge), Itself);
    }
    if DistinctKeys(Signers(t, judge), Itself) {
      DistinctKeysPermute(Signers(t, judge), Signers(s, judge), Itself);
    }
  }

  lemma SignersAppend<T>(entries: seq<T>, e: T, judge: T -> Judgement)
    ensures Signers(entries + [e], judge) == Signers(entries, judge) + SignerOf(judge(e))
  {
    SignersConcat(entries, [e], judge);
    SignersOne(e, judge);
  }

  /** The step of every loop: one more entry. */
  lemma MeetsGrows<T>(entries: seq<T>, e: T, judge: T -> Judgement)
    ensures Meets(entries + [e], judge, 0) <==>
            && Meets(entries, judge, 0) && !judge(e).Bad?
            && (judge(e).SignedBy? ==> judge(e).who !in Signers(entries, judge))
    ensures Signers(entries + [e], judge) == Signers(entries, judge) + SignerOf(judge(e))
  {
    SignersAppend(entries, e, judge);
    var longer := entries + [e];
    assert longer[|entries|] == e;
    assert forall x :: x in longer <==> x in entries || x == e;
    assert NoneBad(longer, judge) <==> NoneBad(entries, judge) && !judge(e).Bad?;
    if judge(e).SignedBy? {
      DistinctGrows(Signers(entries, judge), judge(e).who);
    } else {
      assert Signers(entries, judge) + [] == Signers(entries, judge);
    }
  }

  /** The entries that somebody signed. */
  ghost function Signed<T>(entries: seq<T>, judge: T -> Judgement): set<nat> {
    set i: nat | i < |entries| && judge(entries[i]).SignedBy?
  }

  ghost predicate NobodyTwice<T>(entries: seq<T>, judge: T -> Judgement) {
    forall i, j :: 0 <= i < j < |entries| && judge(entries[i]).SignedBy? && judge(entries[j]).SignedBy? ==>
      judge(entries[i]).who != judge(entries[j]).who
  }

  ghost predicate Signs<T>(entries: seq<T>, judge: T -> Judgement, who: string) {
    exists i :: 0 <= i < |entries| && judge(entries[i]) == SignedBy(who)
  }

  lemma SignedGrows<T>(entries: seq<T>, e: T, judge: T -> Judgement)
    ensures |Signed(entries + [e], judge)| == |Signed(entries, judge)| + if judge(e).SignedBy? then 1 else 0
    ensures NobodyTwice(entries + [e], judge) <==>
            NobodyTwice(entries, judge) && (judge(e).SignedBy? ==> !Signs(entries, judge, judge(e).who))
    ensures forall who :: Signs(entries + [e], judge, who) <==> Signs(entries, judge, who) || judge(e) == SignedBy(who)
  {
    var longer := entries + [e];
    assert longer[|entries|] == e && forall i :: 0 <= i < |entries| ==> longer[i] == entries[i];
    assert Signed(longer, judge) == Signed(entries, judge) + if judge(e).SignedBy? then {|entries|} else {};
    if NobodyTwice(longer, judge) {
      forall i, j | 0 <= i < j < |entries| && judge(entries[i]).SignedBy? && judge(entries[j]).SignedBy?
        ensures judge(entries[i]).who != judge(entries[j]).who
      {
        assert judge(longer[i]).who != judge(longer[j]).who;
      }
    }
    forall who | Signs(entries, judge, who) || judge(e) == SignedBy(who) ensures Signs(longer, judge, who) {
      if Signs(entries, judge, who) {
        var i :| 0 <= i < |entries| && judge(entries[i]) == SignedBy(who);
        assert judge(longer[i]) == SignedBy(who);
      }
    }
  }

  /** What meeting the threshold comes to, entry by entry. */
  lemma {:induction false} MeetsIff<T>(entries: seq<T>, judge: T -> Judgement, min: int)
    ensures Meets(entries, judge, min) <==>
            NoneBad(entries, judge) && NobodyTwice(entries, judge) && |Signed(entries, judge)| >= min
    ensures |Signers(entries, judge)| == |Signed(entries, judge)|
    ensures forall who :: who in Signers(entries, judge) <==> Signs(entries, judge, who)
  {
    if entries != [] {
      var init, last := entries[..|entries| - 1], entries[|entries| - 1];
      assert entries == init + [last];
      MeetsIff(init, judge, 0);
      MeetsGrows(init, last, judge);
      SignedGrows(init, last, judge);
    }
  }

  /** Every entry is blank or signed by somebody, and nobody signs twice. */
  ghost predicate AllSigned<T>(entries: seq<T>, blank: T -> bool, signs: (T, string) -> bool) {
    && (forall i :: 0 <= i < |entries| ==> blank(entries[i]) || exists who :: signs(entries[i], who))
    && (forall i, j, who :: 0 <= i < j < |entries| && signs(entries[i], who) ==> !signs(entries[j], who))
  }

  ghost function NotBlank<T>(entries: seq<T>, blank: T -> bool): set<nat> {
    set i: nat | i < |entries| && !blank(entries[i])
  }

  /** Two at least. */
  lemma TwoNotBlank<T>(entries: seq<T>, blank: T -> bool)
    ensures |NotBlank(entries, blank)| >= 2 <==>
            exists i, j :: 0 <= i < j < |entries| && !blank(entries[i]) && !blank(entries[j])
  {
    var s := NotBlank(entries, blank);
    if |s| >= 2 {
      var i :| i in s;
      assert |s - {i}| >= 1;
      var j :| j in s - {i};
      assert !blank(entries[i]) && !blank(entries[j]);
    }
    if i, j :| 0 <= i < j < |entries| && !blank(entries[i]) && !blank(entries[j]) {
      assert {i, j} <= s && |{i, j}| == 2;
      SubsetSize({i, j}, s);
    }
  }

  /** Two entries signed by two people. */
  ghost predicate TwoSign<T>(entries: seq<T>, signs: (T, string) -> bool) {
    exists i, j, a, b :: 0 <= i < j < |entries| && a != b && signs(entries[i], a) && signs(entries[j], b)
  }

  lemma NotBlankIsSigned<T>(entries: seq<T>, blank: T -> bool, signs: (T, string) -> bool)
    requires AllSigned(entries, blank, signs)
    requires exists i, j :: 0 <= i < j < |entries| && !blank(entries[i]) && !blank(entries[j])
    ensures TwoSign(entries, signs)
  {
    var i, j :| 0 <= i < j < |entries| && !blank(entries[i]) && !blank(entries[j]);
    var a :| signs(entries[i], a);
    var b :| signs(entries[j], b);
    assert a != b;
  }

  lemma {:induction false} SubsetSize(a: set<nat>, b: set<nat>)
    requires a <= b
    ensures |a| <= |b|
  {
    assert b == a + (b - a) && |b| == |a| + |b - a|;
  }

  /** `judge` sees the blank entries as such, and who signed the others. */
  ghost predicate Judges<T>(judge: T -> Judgement, e: T, blank: T -> bool, signs: (T, string) -> bool) {
    && (judge(e).Skip? <==> blank(e))
    && forall who :: judge(e) == SignedBy(who) <==> signs(e, who)
  }

  lemma JudgedAs<T>(judge: T -> Judgement, e: T, blank: T -> bool, signs: (T, string) -> bool)
    requires Judges(judge, e, blank, signs)
    ensures judge(e).Bad? <==> !blank(e) && forall who :: !signs(e, who)
    ensures judge(e).SignedBy? ==> signs(e, judge(e).who) && forall who :: signs(e, who) ==> who == judge(e).who
  {
    assert judge(e).SignedBy? ==> judge(e) == SignedBy(judge(e).who);
  }

  /** The threshold in terms of what the entries are, for any way to judge them. */
  lemma MeetsAs<T>(entries: seq<T>, judge: T -> Judgement, min: int, blank: T -> bool, signs: (T, string) -> bool)
    requires forall e :: e in entries ==> Judges(judge, e, blank, signs)
    ensures Meets(entries, judge, min) <==> AllSigned(entries, blank, signs) && |NotBlank(entries, blank)| >= min
    ensures NoneBad(entries, judge) ==> |Signers(entries, judge)| == |NotBlank(entries, blank)|
  {
    MeetsIff(entries, judge, min);
    forall i | 0 <= i < |entries|
      ensures judge(entries[i]).Bad? <==> !blank(entries[i]) && forall who :: !signs(entries[i], who)
      ensures judge(entries[i]).SignedBy? ==> signs(entries[i], judge(entries[i]).who)
      ensures forall who :: signs(entries[i], who) ==> judge(entries[i]) == SignedBy(who)
      ensures blank(entries[i]) <==> judge(entries[i]).Skip?
    {
      assert Judges(judge, entries[i], blank, signs);
      JudgedAs(judge, entries[i], blank, signs);
    }
    if NoneBad(entries, judge) {
      assert forall i :: 0 <= i < |entries| ==> !judge(entries[i]).Bad?;
      assert Signed(entries, judge) == NotBlank(entries, blank);
    }
  }

  /** Once an entry cannot be accepted, no longer file can. */
  lemma {:induction false} MeetsPrefix<T>(entries: seq<T>, judge: T -> Judgement, k: nat, min: int)
    requires k <= |entries| && Meets(entries, judge, min)
    ensures Meets(entries[..k], judge, 0)
    decreases |entries| - k
  {
    if k == |entries| {
      assert entries[..k] == entries;
    } else {
      MeetsPrefix(entries, judge, k + 1, min);
      assert entries[..k + 1] == entries[..k] + [entries[k]];
      MeetsGrows(entries[..k], entries[k], judge);
    }
  }

  /* ---------- the loop itself ---------- */

  /** Reading entries in order: the first unreadable one decides, and so does the first
      that repeats a person; a blank entry (None) is passed over. */
  function Collect<T, K, E>(entries: seq<T>, read: T -> Result<Option<K>, E>, who: K -> string, repeated: E):
    Result<seq<K>, E>
  {
    if entries == [] then Ok([])
    else
      match Collect(entries[..|entries| - 1], read, who, repeated)
      case Err(e) => Err(e)
      case Ok(found) => Take(found, read(entries[|entries| - 1]), who, repeated)
  }

  function Take<K, E>(found: seq<K>, next: Result<Option<K>, E>, who: K -> string, repeated: E): Result<seq<K>, E> {
    match next
    case Err(e) => Err(e)
    case Ok(None) => Ok(found)
    case Ok(Some(k)) => if who(k) in Names(found, who) then Err(repeated) else Ok(found + [k])
  }

  function Names<K>(found: seq<K>, who: K -> string): seq<string> {
    seq(|found|, i requires 0 <= i < |found| => who(found[i]))
  }

  lemma NamesFirst<K>(found: seq<K>, who: K -> string)
    requires found != []
    ensures Names(found, who) == [who(found[0])] + Names(found[1..], who)
  {
    assert forall i :: 0 < i < |found| ==> Names(found, who)[i] == who(found[i]) == Names(found[1..], who)[i - 1];
  }

  function JudgeBy<T, K, E>(read: T -> Result<Option<K>, E>, who: K -> string): T -> Judgement {
    (e: T) => match read(e)
              case Err(_) => Bad
              case Ok(None) => Skip
              case Ok(Some(k)) => SignedBy(who(k))
  }

  function Enough<K, E>(found: Result<seq<K>, E>, min: int, insufficient: E): Result<seq<K>, E> {
    if found.Ok? && |found.value| < min then Err(insufficient) else found
  }

  lemma {:induction false} CollectMeets<T, K, E>(entries: seq<T>, read: T -> Result<Option<K>, E>,
      who: K -> string, repeated: E)
    ensures Collect(entries, read, who, repeated).Ok? <==> Meets(entries, JudgeBy(read, who), 0)
    ensures Collect(entries, read, who, repeated).Ok? ==>
              Names(Collect(entries, read, who, repeated).value, who) == Signers(entries, JudgeBy(read, who))
  {
    if entries != [] {
      var init, last := entries[..|entries| - 1], entries[|entries| - 1];
      assert entries == init + [last];
      CollectMeets(init, read, who, repeated);
      MeetsGrows(init, last, JudgeBy(read, who));
    }
  }

  /** The loop accepts exactly the files that meet the threshold, and reports the signers
      in the order they signed. */
  lemma EnoughIffMeets<T, K, E>(entries: seq<T>, read: T -> Result<Option<K>, E>, who: K -> string,
                                repeated: E, min: int, insufficient: E)
    ensures var r := Enough(Collect(entries, read, who, repeated), min, insufficient);
            && (r.Ok? <==> Meets(entries, JudgeBy(read, who), min))
            && (r.Ok? ==> Names(r.value, who) == Signers(entries, JudgeBy(read, who)))
  {
    CollectMeets(entries, read, who, repeated);
    if Collect(entries, read, who, repeated).Ok? {
      assert |Names(Collect(entries, read, who, repeated).value, who)| == |Signers(entries, JudgeBy(read, who))|;
    }
  }

  /** Entries that are all read, and by different people, are all collected. */
  lemma {:induction false} AllRead<T, K, E>(entries: seq<T>, read: T -> Result<Option<K>, E>,
      who: K -> string, repeated: E, found: seq<K>)
    requires |found| == |entries| && forall k :: 0 <= k < |entries| ==> read(entries[k]) == Ok(Some(found[k]))
    requires forall j, k :: 0 <= j < k < |found| ==> who(found[j]) != who(found[k])
    ensures Collect(entries, read, who, repeated) == Ok(found)
  {
    if entries != [] {
      var n := |entries| - 1;
      AllRead(entries[..n], read, who, repeated, found[..n]);
      assert found == found[..n] + [found[n]];
      assert forall k :: 0 <= k < n ==> Names(found[..n], who)[k] == who(found[k]);
    }
  }

  /** A failure to collect a prefix is the failure to collect the whole. */
  lemma {:induction false} CollectFailsEarly<T, K, E>(
      entries: seq<T>, read: T -> Result<Option<K>, E>, who: K -> string, repeated: E, k: nat)
    requires k <= |entries| && Collect(entries[..k], read, who, repeated).Err?
    ensures Collect(entries, read, who, repeated) == Collect(entries[..k], read, who, repeated)
  {
    if k == |entries| {
      assert entries[..k] == entries;
    } else {
      var init := entries[..|entries| - 1];
      assert init[..k] == entries[..k];
      CollectFailsEarly(init, read, who, repeated, k);
    }
  }

  /** Behind entries that are collected, one that cannot be accepted decides. */
  lemma FirstRefused<T, K, E>(entries: seq<T>, read: T -> Result<Option<K>, E>, who: K -> string, repeated: E, k: nat)
    requires k < |entries| && Collect(entries[..k], read, who, repeated).Ok?
    ensures read(entries[k]).Err? ==> Collect(entries, read, who, repeated) == Err(read(entries[k]).error)
    ensures read(entries[k]).Ok? && read(entries[k]).value.Some?
            && who(read(entries[k]).value.value) in Signers(entries[..k], JudgeBy(read, who)) ==>
              Collect(entries, read, who, repeated) == Err(repeated)
  {
    assert entries[..k + 1][..k] == entries[..k];
    CollectMeets(entries[..k], read, who, repeated);
    if Collect(entries[..k + 1], read, who, repeated).Err? {
      CollectFailsEarly(entries, read, who, repeated, k + 1);
    }
  }

  /** Renaming people injectively changes no answer. */
  lemma {:induction false} SignersRename<T>(entries: seq<T>, j1: T -> Judgement, j2: T -> Judgement, prefix: string)
    requires forall e :: e in entries ==>
               j2(e) == if j1(e).SignedBy? then SignedBy(prefix + j1(e).who) else j1(e)
    ensures |Signers(entries, j1)| == |Signers(entries, j2)|
    ensures forall i :: 0 <= i < |Signers(entries, j1)| ==> Signers(entries, j2)[i] == prefix + Signers(entries, j1)[i]
  {
    if entries != [] {
      SignersRename(entries[1..], j1, j2, prefix);
    }
  }

  lemma MeetsRename<T>(entries: seq<T>, j1: T -> Judgement, j2: T -> Judgement, prefix: string, min: int)
    requires forall e :: e in entries ==>
               j2(e) == if j1(e).SignedBy? then SignedBy(prefix + j1(e).who) else j1(e)
    ensures Meets(entries, j1, min) <==> Meets(entries, j2, min)
  {
    SignersRename(entries, j1, j2, prefix);
    var s, t := Signers(entries, j1), Signers(entries, j2);
    forall i, j | 0 <= i < j < |s| ensures s[i] == s[j] <==> t[i] == t[j] {
      assert t[i][|prefix|..] == s[i] && t[j][|prefix|..] == s[j];
    }
    if DistinctKeys(s, Itself) {
      forall i, j | 0 <= i < j < |t| ensures Itself(t[i]) != Itself(t[j]) {
        assert Itself(s[i]) != Itself(s[j]);
      }
    }
    if DistinctKeys(t, Itself) {
      forall i, j | 0 <= i < j < |s| ensures Itself(s[i]) != Itself(s[j]) {
        assert Itself(t[i]) != Itself(t[j]);
      }
    }
  }
}
