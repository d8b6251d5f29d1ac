/** pkg/fido: FIDO2 assertions as manifest signatures, and the store of signature
    counters that has to stay sound over whole runs of accept and commit.

    The relying-party hash and the signature check are parameters. */
module Fido {
  import opened Text
  import opened Quorum
  import opened Bytes

  datatype Credential = Credential(id: string, signer: string, alg: string, publicKey: string, rpid: string)

  datatype Policy = Policy(rpid: string, requireUV: bool, requireCounter: bool)

  datatype Assertion = Assertion(credentialId: string, authData: seq<Byte>, signature: string)

  datatype AuthData = AuthData(rpidHash: seq<Byte>, flags: Byte, signCount: nat)

  datatype Verified = Verified(signer: string, signCount: nat, counterChecked: bool, userVerified: bool)

  datatype FidoError =
    | UnknownCredential | BadSignature | RPMismatch | NoUserPresence | NoUserVerification
    | CounterRegression | CounterUnsupported | MalformedAuthData | AlgorithmMismatch
    | DuplicateSigner | InsufficientSigners

  /** The hash of a relying-party id, and the check of a signature over authenticator data
      and the manifest's client-data hash. */
  datatype Crypto = Crypto(
    rpHash: string -> seq<Byte>,
    check: (Credential, seq<Byte>, string, string) -> Option<FidoError>)

  const FLAG_UP := 0x01
  const FLAG_UV := 0x04
  const FLAG_AT := 0x40
  const FLAG_ED := 0x80
  const AUTH_DATA_MIN := 37

  predicate HasFlag(flags: Byte, bit: nat)
    requires bit > 0
  {
    (flags / bit) % 2 == 1
  }

  function ParseAuthData(b: seq<Byte>): Result<AuthData, FidoError> {
    if |b| < AUTH_DATA_MIN then Err(MalformedAuthData)
    else if !HasFlag(b[32], FLAG_AT) && !HasFlag(b[32], FLAG_ED) && |b| != AUTH_DATA_MIN then Err(MalformedAuthData)
    else Ok(AuthData(b[..32], b[32], BigEndian(b[33..37])))
  }

  /** The counter rule: what a reading says after the last one seen. */
  function CounterRule(p: Policy, signCount: nat, lastCount: nat): Result<bool, FidoError> {
    if signCount > lastCount then Ok(true)
    else if signCount == 0 && lastCount == 0 then
      if p.requireCounter then Err(CounterUnsupported) else Ok(false)
    else Err(CounterRegression)
  }

  /** Verify: one assertion against one credential. The checks run in this order. */
  function Verify(c: Crypto, a: Assertion, cred: Credential, p: Policy, lastCount: nat,
      canonical: string): Result<Verified, FidoError> {
    if a.credentialId != cred.id then Err(UnknownCredential)
    else if cred.rpid != p.rpid then Err(RPMismatch)
    else
      match ParseAuthData(a.authData)
      case Err(e) => Err(e)
      case Ok(ad) =>
        if ad.rpidHash != c.rpHash(p.rpid) then Err(RPMismatch)
        else if !HasFlag(ad.flags, FLAG_UP) then Err(NoUserPresence)
        else if p.requireUV && !HasFlag(ad.flags, FLAG_UV) then Err(NoUserVerification)
        else if c.check(cred, a.authData, canonical, a.signature).Some? then
          Err(c.check(cred, a.authData, canonical, a.signature).value)
        else
          match CounterRule(p, ad.signCount, lastCount)
          case Err(e) => Err(e)
          case Ok(checked) => Ok(Verified(cred.signer, ad.signCount, checked, HasFlag(ad.flags, FLAG_UV)))
  }

  /* ---------- what an accepted assertion establishes ---------- */

  /** The assertion is by this credential, for the policy's relying party. */
  ghost predicate ForParty(c: Crypto, a: Assertion, cred: Credential, p: Policy) {
    && a.credentialId == cred.id && cred.rpid == p.rpid && WellFormedData(a.authData)
    && a.authData[..32] == c.rpHash(p.rpid)
  }

  /** 37 bytes: hash, flags and counter; more only if a flag announces credential data (0x40)
      or extensions (0x80). */
  predicate WellFormedData(b: seq<Byte>) {
    |b| == 37 || (|b| > 37 && ((b[32] / 0x40) % 2 == 1 || (b[32] / 0x80) % 2 == 1))
  }

  predicate Touched(b: seq<Byte>)
    requires |b| >= 37
  {
    b[32] % 2 == 1
  }

  predicate UserVerified(b: seq<Byte>)
    requires |b| >= 37
  {
    (b[32] / 4) % 2 == 1
  }

  function CounterIn(b: seq<Byte>): nat
    requires |b| >= 37
  {
    16777216 * (b[33] as int) + 65536 * (b[34] as int) + 256 * (b[35] as int) + (b[36] as int)
  }

  /** Verify accepts exactly a touched assertion for the right party, verified if the policy
      says so, with a good signature over this manifest, and a counter above the last one, or
      none where that is allowed. A missing touch and then a missing verification are reported
      before the signature is looked at, and a counter after it. */
  lemma VerifyDecides(c: Crypto, a: Assertion, cred: Credential, p: Policy, last: nat, canonical: string)
    ensures Verify(c, a, cred, p, last, canonical).Ok? ==> ForParty(c, a, cred, p)
    ensures ForParty(c, a, cred, p) ==>
              var r, b := Verify(c, a, cred, p, last, canonical), a.authData;
              var sig, n := c.check(cred, b, canonical, a.signature), CounterIn(b);
              && (r == Err(NoUserPresence) <== !Touched(b))
              && (Touched(b) && p.requireUV && !UserVerified(b) ==> r == Err(NoUserVerification))
              && (Touched(b) && (p.requireUV ==> UserVerified(b)) ==>
                    r == if sig.Some? then Err(sig.value)
                         else if n > last then Ok(Verified(cred.signer, n, true, UserVerified(b)))
                         else if n == 0 && last == 0
                         then (if p.requireCounter then Err(CounterUnsupported)
                               else Ok(Verified(cred.signer, 0, false, UserVerified(b))))
                         else Err(CounterRegression))
  {
    if WellFormedData(a.authData) {
      BigEndianIs(a.authData[33..37]);
    }
  }

  /** The reason for an assertion that is not for this party. */
  lemma NotForParty(c: Crypto, a: Assertion, cred: Credential, p: Policy, last: nat, canonical: string)
    requires !ForParty(c, a, cred, p)
    ensures Verify(c, a, cred, p, last, canonical) ==
            Err(if a.credentialId != cred.id then UnknownCredential
                else if cred.rpid == p.rpid && !WellFormedData(a.authData) then MalformedAuthData
                else RPMismatch)
  {
  }

  /* ---------- a batch ---------- */

  type Counters = map<string, nat>

  datatype Enrolment = Enrolment(policy: Policy, byId: map<string, Credential>)

  function Count(counters: Counters, id: string): nat { if id in counters then counters[id] else 0 }

  function ReadAssertion(c: Crypto, en: Enrolment, counters: Counters, canonical: string, a: Assertion):
    Result<Option<Verified>, FidoError>
  {
    if a.credentialId !in en.byId then Err(UnknownCredential)
    else
      match Verify(c, a, en.byId[a.credentialId], en.policy, Count(counters, a.credentialId), canonical)
      case Err(e) => Err(e)
      case Ok(v) => Ok(Some(v))
  }

  function Reader(c: Crypto, en: Enrolment, counters: Counters,
      canonical: string): Assertion -> Result<Option<Verified>, FidoError> {
    (a: Assertion) => ReadAssertion(c, en, counters, canonical, a)
  }

  function Person(v: Verified): string { v.signer }

  function BatchOutcome(c: Crypto, en: Enrolment, counters: Counters, batch: seq<Assertion>, canonical: string,
      min: int):
    Result<seq<Verified>, FidoError>
  {
    Enough(Collect(batch, Reader(c, en, counters, canonical), Person, DuplicateSigner), min, InsufficientSigners)
  }

  /** The counters after committing the first results against their assertions. */
  function Committed(counters: Counters, results: seq<Verified>, batch: seq<Assertion>): Counters {
    if results == [] then counters
    else
      var k := |results| - 1;
      var before := Committed(counters, results[..k], batch);
      if results[k].counterChecked && k < |batch| then before[batch[k].credentialId := results[k].signCount] else before
  }

  class Store {
    const enrolment: Enrolment
    var counters: Counters

    constructor (enrolment: Enrolment, counters: Counters)
      ensures this.enrolment == enrolment && this.counters == counters
    {
      this.enrolment := enrolment;
      this.counters := counters;
    }

    /** VerifyAll only reads the counters. */
    method VerifyAll(c: Crypto, batch: seq<Assertion>, canonical: string,
        min: int) returns (r: Result<seq<Verified>, FidoError>)
      ensures r == BatchOutcome(c, enrolment, counters, batch, canonical, min)
      ensures r.Ok? <==> Meets(batch, JudgeBy(Reader(c, enrolment, counters, canonical), Person), min)
    {
      ghost var read := Reader(c, enrolment, counters, canonical);
      EnoughIffMeets(batch, read, Person, DuplicateSigner, min, InsufficientSigners);
      var seen: set<string> := {};
      var results: seq<Verified> := [];
      for i := 0 to |batch|
        invariant Collect(batch[..i], read, Person, DuplicateSigner) == Ok(results)
        invariant forall w :: w in seen <==> w in Names(results, Person)
        invariant |seen| == |results|
      {
        assert batch[..i + 1][..i] == batch[..i];
        var next := ReadAssertion(c, enrolment, counters, canonical, batch[i]);
        if next.Err? {
          assert Collect(batch[..i + 1], read, Person, DuplicateSigner) == Err(next.error);
          CollectFailsEarly(batch, read, Person, DuplicateSigner, i + 1);
          return Err(next.error);
        }
        var v := next.value.value;
        if v.signer in seen {
          assert Collect(batch[..i + 1], read, Person, DuplicateSigner) == Err(DuplicateSigner);
          CollectFailsEarly(batch, read, Person, DuplicateSigner, i + 1);
          return Err(DuplicateSigner);
        }
        PeopleGrow(results, v);
        seen, results := seen + {v.signer}, results + [v];
      }
      assert batch[..|batch|] == batch;
      if |seen| < min {
        return Err(InsufficientSigners);
      }
      r := Ok(results);
    }

    method Commit(results: seq<Verified>, batch: seq<Assertion>)
      modifies this
      ensures counters == Committed(old(counters), results, batch)
    {
      for i := 0 to |results|
        invariant counters == Committed(old(counters), results[..i], batch)
      {
        assert results[..i + 1][..i] == results[..i];
        if results[i].counterChecked && i < |batch| {
          counters := counters[batch[i].credentialId := results[i].signCount];
        }
      }
      assert results[..|results|] == results;
    }
  }

  lemma PeopleGrow(found: seq<Verified>, v: Verified)
    ensures Names(found + [v], Person) == Names(found, Person) + [v.signer]
  {
    var longer := Names(found + [v], Person);
    assert forall i :: 0 <= i < |found| ==> longer[i] == Person(found[i]);
    assert longer[|found|] == Person(v);
  }

  /* ---------- what one accepted batch does ---------- */

  /** The results stand for the assertions one by one, under one reading of the counters. */
  ghost predicate Answers(c: Crypto, en: Enrolment, counters: Counters, batch: seq<Assertion>, canonical: string,
      results: seq<Verified>) {
    && |results| == |batch|
    && forall k :: 0 <= k < |batch| ==> ReadAssertion(c, en, counters, canonical, batch[k]) == Ok(Some(results[k]))
  }

  lemma {:induction false} AcceptedAnswers(c: Crypto, en: Enrolment, counters: Counters, batch: seq<Assertion>,
      canonical: string)
    requires Collect(batch, Reader(c, en, counters, canonical), Person, DuplicateSigner).Ok?
    ensures var results := Collect(batch, Reader(c, en, counters, canonical), Person, DuplicateSigner).value;
            Answers(c, en, counters, batch, canonical, results) && DistinctKeys(results, Person)
  {
    if batch != [] {
      var n := |batch| - 1;
      var read := Reader(c, en, counters, canonical);
      AcceptedAnswers(c, en, counters, batch[..n], canonical);
      var before := Collect(batch[..n], read, Person, DuplicateSigner).value;
      var v := ReadAssertion(c, en, counters, canonical, batch[n]).value.value;
      assert Collect(batch, read, Person, DuplicateSigner) ==
             Take(before, read(batch[n]), Person, DuplicateSigner) == Ok(before + [v]);
      forall j | 0 <= j < n ensures Person(before[j]) != Person(v) {
        assert Names(before, Person)[j] == Person(before[j]);
      }
      forall k | 0 <= k < n ensures ReadAssertion(c, en, counters, canonical, batch[k]) == Ok(Some(before[k])) {
        assert batch[..n][k] == batch[k];
      }
    }
  }

  /** The assertion is good under this enrolment, its counter set against the stored one. */
  ghost predicate Good(c: Crypto, en: Enrolment, counters: Counters, canonical: string, a: Assertion) {
    && a.credentialId in en.byId
    && Verify(c, a, en.byId[a.credentialId], en.policy,
              if a.credentialId in counters then counters[a.credentialId] else 0, canonical).Ok?
  }

  ghost predicate AllGoodByDistinctPeople(c: Crypto, en: Enrolment, counters: Counters, canonical: string,
                                          batch: seq<Assertion>)
  {
    && (forall k :: 0 <= k < |batch| ==> Good(c, en, counters, canonical, batch[k]))
    && forall j, k :: 0 <= j < k < |batch| ==>
         en.byId[batch[j].credentialId].signer != en.byId[batch[k].credentialId].signer
  }

  function Signer(en: Enrolment, a: Assertion): string
    requires a.credentialId in en.byId
  {
    en.byId[a.credentialId].signer
  }

  lemma GoodIsRead(c: Crypto, en: Enrolment, counters: Counters, canonical: string, a: Assertion)
    ensures Good(c, en, counters, canonical, a) <==> ReadAssertion(c, en, counters, canonical, a).Ok?
    ensures Good(c, en, counters, canonical, a) ==>
              var r := ReadAssertion(c, en, counters, canonical, a).value;
              r.Some? && r.value.signer == Signer(en, a)
  {
  }

  lemma GoodAreCollected(c: Crypto, en: Enrolment, counters: Counters, batch: seq<Assertion>, canonical: string)
    requires AllGoodByDistinctPeople(c, en, counters, canonical, batch)
    ensures var r := Collect(batch, Reader(c, en, counters, canonical), Person, DuplicateSigner);
            && r.Ok? && |r.value| == |batch|
            && forall k :: 0 <= k < |batch| ==> Person(r.value[k]) == Signer(en, batch[k])
  {
    var read := Reader(c, en, counters, canonical);
    forall k | 0 <= k < |batch| ensures read(batch[k]).Ok? && read(batch[k]).value.Some?
        && Person(read(batch[k]).value.value) == Signer(en, batch[k]) {
      GoodIsRead(c, en, counters, canonical, batch[k]);
    }
    var found := seq(|batch|, k requires 0 <= k < |batch| => read(batch[k]).value.value);
    AllRead(batch, read, Person, DuplicateSigner, found);
  }

  /** A batch is accepted exactly if every assertion is good, no two are by one person, and
      there are enough. */
  lemma BatchAcceptedIff(c: Crypto, en: Enrolment, counters: Counters, batch: seq<Assertion>, canonical: string,
      min: int)
    ensures BatchOutcome(c, en, counters, batch, canonical, min).Ok? <==>
            AllGoodByDistinctPeople(c, en, counters, canonical, batch) && |batch| >= min
  {
    if AllGoodByDistinctPeople(c, en, counters, canonical, batch) {
      GoodAreCollected(c, en, counters, batch, canonical);
    }
    if Collect(batch, Reader(c, en, counters, canonical), Person, DuplicateSigner).Ok? {
      AcceptedAnswers(c, en, counters, batch, canonical);
      var results := Collect(batch, Reader(c, en, counters, canonical), Person, DuplicateSigner).value;
      forall k | 0 <= k < |batch|
        ensures Good(c, en, counters, canonical, batch[k])
        ensures Person(results[k]) == en.byId[batch[k].credentialId].signer
      {
        GoodIsRead(c, en, counters, canonical, batch[k]);
      }
    }
  }

  /** Behind good assertions by different people, the first other one decides: with its own
      fault, or as a repetition of a person; and with none there may be too few. */
  lemma FirstRefusedDecides(c: Crypto, en: Enrolment, counters: Counters, batch: seq<Assertion>, canonical: string,
      min: int, k: nat)
    requires k <= |batch| && AllGoodByDistinctPeople(c, en, counters, canonical, batch[..k])
    ensures var r := BatchOutcome(c, en, counters, batch, canonical, min);
            if k == |batch| then |batch| < min ==> r == Err(InsufficientSigners)
            else if batch[k].credentialId !in en.byId then r == Err(UnknownCredential)
            else
              var v := Verify(c, batch[k], en.byId[batch[k].credentialId], en.policy,
                              Count(counters, batch[k].credentialId), canonical);
              if v.Err? then r == Err(v.error)
              else (exists j :: 0 <= j < k && Signer(en, batch[j]) == Signer(en, batch[k])) ==>
                     r == Err(DuplicateSigner)
  {
    GoodAreCollected(c, en, counters, batch[..k], canonical);
    if k == |batch| {
      assert batch[..k] == batch;
    } else {
      RefusedBehindGood(c, en, counters, batch, canonical, min, k);
      GoodIsRead(c, en, counters, canonical, batch[k]);
    }
  }

  lemma RefusedBehindGood(c: Crypto, en: Enrolment, counters: Counters, batch: seq<Assertion>, canonical: string,
      min: int, k: nat)
    requires k < |batch| && AllGoodByDistinctPeople(c, en, counters, canonical, batch[..k])
    ensures var r, v := BatchOutcome(c, en, counters, batch, canonical, min),
                        ReadAssertion(c, en, counters, canonical, batch[k]);
            && (v.Err? ==> r == Err(v.error))
            && (v.Ok? && v.value.Some? && (exists j :: 0 <= j < k && Signer(en, batch[j]) == v.value.value.signer) ==>
                  r == Err(DuplicateSigner))
  {
    var read, before := Reader(c, en, counters, canonical), batch[..k];
    GoodAreCollected(c, en, counters, before, canonical);
    GoodAreSigners(c, en, counters, before, canonical);
    FirstRefused(batch, read, Person, DuplicateSigner, k);
    assert read(batch[k]) == ReadAssertion(c, en, counters, canonical, batch[k]);
    assert forall j :: 0 <= j < k ==> before[j] == batch[j];
  }

  lemma GoodAreSigners(c: Crypto, en: Enrolment, counters: Counters, batch: seq<Assertion>, canonical: string)
    requires AllGoodByDistinctPeople(c, en, counters, canonical, batch)
    ensures forall k :: 0 <= k < |batch| ==>
              Signer(en, batch[k]) in Signers(batch, JudgeBy(Reader(c, en, counters, canonical), Person))
  {
    var read := Reader(c, en, counters, canonical);
    GoodAreCollected(c, en, counters, batch, canonical);
    CollectMeets(batch, read, Person, DuplicateSigner);
    var found := Collect(batch, read, Person, DuplicateSigner).value;
    forall k | 0 <= k < |batch| ensures Signer(en, batch[k]) in Signers(batch, JudgeBy(read, Person)) {
      assert Names(found, Person)[k] == Signer(en, batch[k]);
    }
  }

  ghost predicate DistinctCredentials(batch: seq<Assertion>) {
    forall j, k :: 0 <= j < k < |batch| ==> batch[j].credentialId != batch[k].credentialId
  }

  /** Distinct people have distinct credentials, because a credential names one person. */
  lemma AcceptedResults(c: Crypto, en: Enrolment, counters: Counters, batch: seq<Assertion>, canonical: string)
    requires Collect(batch, Reader(c, en, counters, canonical), Person, DuplicateSigner).Ok?
    ensures Answers(c, en, counters, batch, canonical,
            Collect(batch, Reader(c, en, counters, canonical), Person, DuplicateSigner).value)
    ensures DistinctCredentials(batch)
  {
    AcceptedAnswers(c, en, counters, batch, canonical);
    var results := Collect(batch, Reader(c, en, counters, canonical), Person, DuplicateSigner).value;
    forall k | 0 <= k < |batch| ensures Person(results[k]) == en.byId[batch[k].credentialId].signer {}
    forall j, k | 0 <= j < k < |batch| ensures batch[j].credentialId != batch[k].credentialId {
      assert Person(results[j]) != Person(results[k]);
    }
  }

  /** An accepted reading is above the last one, or both are zero and it is unchecked. */
  lemma AcceptedReading(c: Crypto, en: Enrolment, counters: Counters, canonical: string, a: Assertion)
    requires ReadAssertion(c, en, counters, canonical, a).Ok?
    ensures var v := ReadAssertion(c, en, counters, canonical, a).value.value;
            if v.counterChecked then v.signCount > Count(counters, a.credentialId)
            else v.signCount == 0 == Count(counters, a.credentialId) && !en.policy.requireCounter
  {
  }

  lemma {:induction false} CommittedCounts(counters: Counters, results: seq<Verified>, batch: seq<Assertion>)
    requires |results| <= |batch| && DistinctCredentials(batch)
    ensures var after := Committed(counters, results, batch);
            && (forall k :: 0 <= k < |results| && results[k].counterChecked ==>
                  Count(after, batch[k].credentialId) == results[k].signCount)
            && (forall id :: (forall k :: 0 <= k < |results| && results[k].counterChecked ==>
                batch[k].credentialId != id) ==>
                  Count(after, id) == Count(counters, id))
  {
    if results != [] {
      CommittedCounts(counters, results[..|results| - 1], batch);
    }
  }

  /** Commit after an accepted batch: no counter falls, and every checked one rises to
      the reading that was accepted. */
  lemma BatchRaisesCounters(c: Crypto, en: Enrolment, counters: Counters, batch: seq<Assertion>, canonical: string,
      min: int)
    requires BatchOutcome(c, en, counters, batch, canonical, min).Ok?
    ensures var results := BatchOutcome(c, en, counters, batch, canonical, min).value;
            var after := Committed(counters, results, batch);
            && |results| == |batch|
            && (forall id :: Count(after, id) >= Count(counters, id))
            && (forall k :: 0 <= k < |batch| && results[k].counterChecked ==>
                  Count(counters, batch[k].credentialId) < results[k].signCount == Count(after, batch[k].credentialId))
            && (forall k :: 0 <= k < |batch| && !results[k].counterChecked ==>
                  Count(counters, batch[k].credentialId) == 0 && !en.policy.requireCounter)
  {
    AcceptedResults(c, en, counters, batch, canonical);
    var results := BatchOutcome(c, en, counters, batch, canonical, min).value;
    var after := Committed(counters, results, batch);
    CommittedCounts(counters, results, batch);
    forall k | 0 <= k < |batch|
      ensures if results[k].counterChecked then results[k].signCount > Count(counters, batch[k].credentialId)
              else Count(counters, batch[k].credentialId) == 0 && !en.policy.requireCounter
    {
      AcceptedReading(c, en, counters, canonical, batch[k]);
    }
    forall id ensures Count(after, id) >= Count(counters, id) {
      if k :| 0 <= k < |results| && results[k].counterChecked && batch[k].credentialId == id {
        assert Count(after, id) == results[k].signCount;
      }
    }
  }

  function AnswerTo(c: Crypto, en: Enrolment, counters: Counters, canonical: string, a: Assertion): Verified
    requires ReadAssertion(c, en, counters, canonical, a).Ok?
  {
    ReadAssertion(c, en, counters, canonical, a).value.value
  }

  /** What committing an accepted batch does to one counter, read off the batch itself. */
  lemma CountAfter(c: Crypto, en: Enrolment, counters: Counters, batch: seq<Assertion>, canonical: string,
      min: int, id: string)
    requires BatchOutcome(c, en, counters, batch, canonical, min).Ok?
    ensures forall a :: a in batch && a.credentialId == id ==> ReadAssertion(c, en, counters, canonical, a).Ok?
    ensures var after := Committed(counters, BatchOutcome(c, en, counters, batch, canonical, min).value, batch);
            var answers := set a | a in batch && a.credentialId == id :: AnswerTo(c, en, counters, canonical, a);
            && (forall v :: v in answers && v.counterChecked ==> Count(after, id) == v.signCount)
            && ((forall v :: v in answers ==> !v.counterChecked) ==> Count(after, id) == Count(counters, id))
  {
    AcceptedResults(c, en, counters, batch, canonical);
    CommittedCounts(counters, BatchOutcome(c, en, counters, batch, canonical, min).value, batch);
  }

  /** Reordering a batch changes neither whether it is accepted nor any counter after it. */
  lemma BatchOrderIsFree(c: Crypto, en: Enrolment, counters: Counters, s: seq<Assertion>, t: seq<Assertion>,
      canonical: string, min: int)
    requires multiset(s) == multiset(t)
    ensures BatchOutcome(c, en, counters, s, canonical, min).Ok? <==>
            BatchOutcome(c, en, counters, t, canonical, min).Ok?
    ensures BatchOutcome(c, en, counters, s, canonical, min).Ok? ==>
              forall id :: Count(Committed(counters, BatchOutcome(c, en, counters, s, canonical, min).value, s), id) ==
                           Count(Committed(counters, BatchOutcome(c, en, counters, t, canonical, min).value, t), id)
  {
    EnoughIffMeets(s, Reader(c, en, counters, canonical), Person, DuplicateSigner, min, InsufficientSigners);
    EnoughIffMeets(t, Reader(c, en, counters, canonical), Person, DuplicateSigner, min, InsufficientSigners);
    MeetsIsOrderFree(s, t, JudgeBy(Reader(c, en, counters, canonical), Person), min);
    if BatchOutcome(c, en, counters, s, canonical, min).Ok? {
      forall id ensures Count(Committed(counters, BatchOutcome(c, en, counters, s, canonical, min).value, s), id) ==
                        Count(Committed(counters, BatchOutcome(c, en, counters, t, canonical, min).value, t), id) {
        CountAfter(c, en, counters, s, canonical, min, id);
        CountAfter(c, en, counters, t, canonical, min, id);
        assert forall a :: a in s <==> a in multiset(s);
        assert forall a :: a in t <==> a in multiset(t);
      }
    }
  }

  /* ---------- whole runs ---------- */

  datatype Attempt = Attempt(batch: seq<Assertion>, canonical: string, min: int)

  /** An attempt is verified, and committed if it was accepted. */
  function Step(c: Crypto, en: Enrolment, counters: Counters, a: Attempt): Counters {
    match BatchOutcome(c, en, counters, a.batch, a.canonical, a.min)
    case Err(_) => counters
    case Ok(results) => Committed(counters, results, a.batch)
  }

  function Exec(c: Crypto, en: Enrolment, counters: Counters, run: seq<Attempt>): Counters {
    if run == [] then counters else Step(c, en, Exec(c, en, counters, run[..|run| - 1]), run[|run| - 1])
  }

  /** Over any run no stored counter ever falls. */
  lemma {:induction false} CountersNeverFall(c: Crypto, en: Enrolment, counters: Counters, run: seq<Attempt>,
      k: nat, id: string)
    requires k <= |run|
    ensures Count(Exec(c, en, counters, run[..k]), id) <= Count(Exec(c, en, counters, run), id)
  {
    if k == |run| {
      assert run[..k] == run;
    } else {
      var init, last := run[..|run| - 1], run[|run| - 1];
      assert init[..k] == run[..k];
      CountersNeverFall(c, en, counters, init, k, id);
      var before := Exec(c, en, counters, init);
      if BatchOutcome(c, en, before, last.batch, last.canonical, last.min).Ok? {
        BatchRaisesCounters(c, en, before, last.batch, last.canonical, last.min);
      }
    }
  }

  /** The counter an assertion carries. */
  function Reading(a: Assertion): nat {
    match ParseAuthData(a.authData)
    case Ok(ad) => ad.signCount
    case Err(_) => 0
  }

  lemma SpentReading(c: Crypto, en: Enrolment, counters: Counters, batch: seq<Assertion>, canonical: string,
      min: int, a: Assertion)
    requires a in batch && Count(counters, a.credentialId) >= Reading(a) > 0
    ensures BatchOutcome(c, en, counters, batch, canonical, min).Err?
  {
    if BatchOutcome(c, en, counters, batch, canonical, min).Ok? {
      AcceptedResults(c, en, counters, batch, canonical);
      AcceptedReading(c, en, counters, canonical, a);
    }
  }

  /** The count an accepted assertion is answered with is the one it carries. */
  lemma AcceptedCountIsReading(c: Crypto, en: Enrolment, counters: Counters, canonical: string, a: Assertion)
    requires ReadAssertion(c, en, counters, canonical, a).Ok?
    ensures ReadAssertion(c, en, counters, canonical, a).value.Some?
    ensures ReadAssertion(c, en, counters, canonical, a).value.value.signCount == Reading(a)
    ensures ReadAssertion(c, en, counters, canonical, a).value.value.counterChecked <==> Reading(a) > 0
  {
  }

  /** After the commit of an accepted batch, a checked member's reading is spent. */
  lemma CheckedIsSpent(c: Crypto, en: Enrolment, counters: Counters, a: Attempt, k: nat)
    requires BatchOutcome(c, en, counters, a.batch, a.canonical, a.min).Ok?
    requires var results := BatchOutcome(c, en, counters, a.batch, a.canonical, a.min).value;
             k < |results| && k < |a.batch| && results[k].counterChecked
    ensures Count(Step(c, en, counters, a), a.batch[k].credentialId) >= Reading(a.batch[k]) > 0
  {
    BatchRaisesCounters(c, en, counters, a.batch, a.canonical, a.min);
    AcceptedResults(c, en, counters, a.batch, a.canonical);
    AcceptedCountIsReading(c, en, counters, a.canonical, a.batch[k]);
  }

  lemma ExecStep(c: Crypto, en: Enrolment, counters: Counters, run: seq<Attempt>, i: nat)
    requires i < |run|
    ensures Exec(c, en, counters, run[..i + 1]) == Step(c, en, Exec(c, en, counters, run[..i]), run[i])
  {
    assert run[..i + 1][..i] == run[..i];
  }

  /** Once an assertion was accepted with its counter checked and committed, no later
      batch containing it, over whatever manifest, is accepted. */
  lemma NoReplay(c: Crypto, en: Enrolment, counters: Counters, run: seq<Attempt>, i: nat, k: nat, again: Attempt)
    requires i < |run| && k < |run[i].batch|
    requires var r := BatchOutcome(c, en, Exec(c, en, counters, run[..i]), run[i].batch, run[i].canonical, run[i].min);
             r.Ok? && k < |r.value| && r.value[k].counterChecked
    requires run[i].batch[k] in again.batch
    ensures BatchOutcome(c, en, Exec(c, en, counters, run), again.batch, again.canonical, again.min).Err?
  {
    var a := run[i].batch[k];
    CheckedIsSpent(c, en, Exec(c, en, counters, run[..i]), run[i], k);
    ExecStep(c, en, counters, run, i);
    CountersNeverFall(c, en, counters, run, i + 1, a.credentialId);
    SpentReading(c, en, Exec(c, en, counters, run), again.batch, again.canonical, again.min, a);
  }

  ghost predicate NoneChecked(results: seq<Verified>) {
    forall k :: 0 <= k < |results| ==> !results[k].counterChecked
  }

  /** Nothing in an accepted batch was counter-checked exactly if all its counters are zero. */
  lemma UncheckedIffZero(c: Crypto, en: Enrolment, counters: Counters, a: Attempt)
    requires BatchOutcome(c, en, counters, a.batch, a.canonical, a.min).Ok?
    ensures NoneChecked(BatchOutcome(c, en, counters, a.batch, a.canonical, a.min).value) <==>
            forall x :: x in a.batch ==> Reading(x) == 0
  {
    AcceptedResults(c, en, counters, a.batch, a.canonical);
    var results := BatchOutcome(c, en, counters, a.batch, a.canonical, a.min).value;
    forall k | 0 <= k < |a.batch| ensures results[k].counterChecked <==> Reading(a.batch[k]) > 0 {
      AcceptedCountIsReading(c, en, counters, a.canonical, a.batch[k]);
    }
    assert forall k :: 0 <= k < |a.batch| ==> a.batch[k] in a.batch;
  }

  /** Presenting an accepted batch again straight after its commit succeeds exactly when
      every assertion in it carries a zero counter. */
  lemma ReplayIffUnchecked(c: Crypto, en: Enrolment, counters: Counters, a: Attempt)
    requires BatchOutcome(c, en, counters, a.batch, a.canonical, a.min).Ok?
    ensures BatchOutcome(c, en, Step(c, en, counters, a), a.batch, a.canonical, a.min).Ok? <==>
            forall x :: x in a.batch ==> Reading(x) == 0
  {
    UncheckedIffZero(c, en, counters, a);
    AcceptedResults(c, en, counters, a.batch, a.canonical);
    var results := BatchOutcome(c, en, counters, a.batch, a.canonical, a.min).value;
    if NoneChecked(results) {
      UncheckedCommitsNothing(counters, results, a.batch);
    } else {
      var k :| 0 <= k < |results| && results[k].counterChecked;
      CheckedIsSpent(c, en, counters, a, k);
      SpentReading(c, en, Step(c, en, counters, a), a.batch, a.canonical, a.min, a.batch[k]);
    }
  }

  lemma {:induction false} UncheckedCommitsNothing(counters: Counters, results: seq<Verified>, batch: seq<Assertion>)
    requires NoneChecked(results)
    ensures Committed(counters, results, batch) == counters
  {
    if results != [] {
      UncheckedCommitsNothing(counters, results[..|results| - 1], batch);
    }
  }
}
