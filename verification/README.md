# Arazu: a verified model of the acceptance gate

Arazu accepts a signed bundle at a boundary, reduces it to a content root, binds a signing
key in a TPM to that root, runs candidate patches through the stages of a gate, and records
what it did in a hash-chained log and in self-contained dossiers. This project models that
machinery in Dafny and proves what it is for.

| file | models |
|---|---|
| `Text.dfy`, `Bytes.dfy`, `Paths.dfy` | Go's string order, `sort.Slice`, decimal numbers, white space, big-endian integers, `filepath.Clean` and `strings.Split` |
| `ContentStore.dfy` | the content root, the scan of a bundle, its check against a manifest, the run-time measurement |
| `Manifest.dfy`, `SigFile.dfy`, `Signer.dfy`, `Quorum.dfy` | canonical manifests, the text of signature files, the loops that count people |
| `Ingress.dfy`, `BundleSign.dfy` | the gate on the boundary over sequences of runs, and the tool that produces what it accepts |
| `TpmSeal.dfy`, `TpmLock.dfy`, `TpmLate.dfy`, `SealTool.dfy` | seal and unseal under a shared PCR as a concurrent protocol, what its one lock file is good for, the same with tools that outlive their process, the signing decision, and the whole chain |
| `AuditLog.dfy` | the log: scanner, writer handles, every interleaving of handles on one file, writes that fail part way included |
| `Gate.dfy`, `Dossier.dfy` | the runner and its validator, the staged emitter and the re-deriving verifier of dossiers |
| `Challenge.dfy`, `StageRuns.dfy`, `Revert.dfy`, `Sanitizer.dfy`, `ClassReplay.dfy`, `Corpus.dfy` | the trees that stages drive, what M1 and M3 have in common, and the stages M1, M3 and M2 |
| `Fido.dfy` | authenticator assertions and the counter store |
| `Eval.dfy`, `Png.dfy` | the per-stage score, and the PNG mutator's parser and printer |

Conventions. Go strings and byte slices are sequences with one character (or `Byte`) per
byte; white space is decided character by character. SHA-256 is a function parameter, and a theorem
that leans on it asks for no collision among the finite set of messages it names, because a
hash with digests of a fixed length cannot be injective everywhere. Signature primitives are
parameters. JSON is an encoder and a decoder, related only where a theorem says so
(`Lossless`, `RoundTrips`, `Faithful`, `Storable`, `Whole`). `sort.Slice` is not stable; what is proved
about sorted lists holds for every sorted permutation where the keys are distinct, and
`Text.AnySortAgreesIff` says that this is exactly when the outcome is determined.

Where the code and its comments differ, the model follows the code:

- The comment on `ContentRoot` says a path containing the separator cannot be arranged to
  look like a different file list. `ContentStore.RootPinsDownIff` says exactly which lists
  share their root with no other list: the empty one and a single file without a NUL in path
  or hash. Two files can always be replaced by one whose hash field contains a NUL and hides
  the other. Among lists known to be NUL-free in all fields a root does bind the files
  (`RootBindsFiles`); the measured lists are such lists, since paths of files and hexadecimal
  digests hold no NUL.
- The comment on `Report.Problems` says it is empty exactly when the outcome is Verified.
  A dossier that is consistent but not self-contained is another case: the second clause of
  `Dossier.Verify` is the exact condition, and `Dossier.NothingRecordedIsNoProblem` is a case.
- The comment on `MeasureBundle` says the gate and the measurement cannot disagree. They do on a
  manifest that lists a path twice (`ContentStore.RepeatedPathMovesTheRoot`), and
  `ContentStore.PublishedRootIsMeasuredRootIff` is the exact condition.
- `stageKey` maps the names of M0, M1 and M2 to the keys of the reason vocabulary and leaves
  M3's name as it is, so the matrix reported for M3 never has a bad candidate in scope
  (`Eval.SanitizerIsNeverAnswerable`).
- "A rejection does not advance the accepted-version state" holds (`RejectConsumesNothing`),
  but an ERROR may: the log is written after the version file (`UnloggedAcceptanceIsSpent`).
- A version file that is written only in part can lower the stored version:
  `TornWriteIsSafeIff` says after which partial writes this cannot happen.
- The comment on `lockPath` says the lock covers the whole sequence. The kernel drops it with
  the process that took it, and not with a tool that process started, whose effect may come
  later. `TpmLate.SafeIffLateEffectsMissTheWindow` says exactly where that does no harm.
- `Append` reports a write that fails, but what is in the file by then stays. Once any byte
  of a line is there without its newline, every later append breaks the log, and the handle
  that made it is not told (`AuditLog.TornLineBreaksTheNext`).
- Any failure to run `git apply`, even one that has nothing to do with the patch, is reported
  as patch-does-not-apply; resets, builds and runs that fail never become a verdict.
- The check in `Validate` that a rejection has no undecided stage never changes the answer
  (`Gate.ChecksIffSupported`), and neither does the test on repeated key ids in
  `signer.VerifyAll` (`Signer.KeyTestIsRedundant`).

## Model

| member | source | states |
|---|---|---|
| Text.AnySortAgreesIff | pkg/contentstore/contentstore.go:46-47 | every admissible outcome of the unstable sort is the same list exactly when equal paths mean equal files |
| Text.SortBySorted | pkg/manifest/manifest.go:47-51 | sorting gives a sorted permutation, whatever the keys |
| Text.LessIff | pkg/manifest/manifest.go:47-51 | the order sorted by: one string is before another if it ends first or has the smaller byte where they first differ |
| Paths.SafePathIff | pkg/contentstore/contentstore.go:118-139 | the three lexical tests admit the bare root and the paths whose every element is a proper name, and nothing else |
| Paths.CheckPathIff | pkg/contentstore/contentstore.go:118-139 | a path is allowed exactly if its elements are proper names, or it is the root, and some allowed prefix begins it; the two refusals are told apart by which of the two fails |
| ContentStore.ComputeContentRoot | pkg/contentstore/contentstore.go:44-54 | the hashing loop computes the digest of the domain tag and the records in path order |
| ContentStore.EncodeInjective | pkg/contentstore/contentstore.go:44-54 | the stream of `path NUL hash NUL size newline` records decodes in one way only |
| ContentStore.RootBindsFiles | pkg/contentstore/contentstore.go:44-54 | equal roots mean the same files: paths, hashes, sizes and multiplicities |
| ContentStore.RootOrderIndependent | pkg/contentstore/contentstore.go:44-54 | the root does not depend on the order of the list, nor on which admissible sort ran |
| ContentStore.RootOfRecords | pkg/contentstore/contentstore.go:44-54 | what is hashed, spelled out: the tag, then path, NUL, hash, NUL, decimal size and newline for each file in path order |
| ContentStore.RootPinsDownIff | pkg/contentstore/contentstore.go:38-54 | which lists share their root with no other list, barring collisions: exactly the empty list and a single NUL-free file |
| ContentStore.PairGivesTwin | pkg/contentstore/contentstore.go:38-54 | any list of two or more files has a shorter one that hashes alike |
| ContentStore.NulGivesTwin | pkg/contentstore/contentstore.go:38-54 | a file with a NUL in path or hash has another file with the same record |
| ContentStore.ScanDir | pkg/contentstore/contentstore.go:76-107 | lists exactly the regular files in path order, and refuses exactly the trees holding something that is neither file nor directory |
| ContentStore.VerifyAgainst | pkg/contentstore/contentstore.go:158-208 | answers the reason of the first check that fails, and none exactly when the store is what the manifest says |
| ContentStore.VerdictNoneIffConforms | pkg/contentstore/contentstore.go:158-208 | the ordered checks accept exactly the conforming stores |
| ContentStore.VerdictReasons | pkg/contentstore/contentstore.go:158-208 | which reason each refused store gets: the first path not admitted, something neither file nor directory, the first file missing or not a file, a difference, something not listed |
| ContentStore.MeasureBundle | pkg/contentstore/contentstore.go:228-241 | measures the regular files other than manifest and signatures, and their root |
| ContentStore.ConformingPayloadIff | pkg/contentstore/contentstore.go:158-241 | measuring an accepted store finds the manifest's files, each once, exactly when no path repeats and no metadata is listed |
| ContentStore.PublishedRootIsMeasuredRootIff | cmd/ingress-verify/main.go:135-143 | the root the gate publishes is the one measured later exactly under that condition |
| ContentStore.RepeatedPathMovesTheRoot | pkg/contentstore/contentstore.go:158-241 | a store with one file, listed twice, is accepted, and its published root is not the measured one |
| ContentStore.SameRootIffSameBytes | pkg/contentstore/contentstore.go:217-241 | two trees measure to the same root exactly when their payloads are equal byte for byte |
| Manifest.OneSpelling | pkg/manifest/manifest.go:5-13 | two accepted manifests that decode equal are equal up to newlines at the end, and conversely |
| Manifest.ParseIff | pkg/manifest/manifest.go:47-85 | bytes parse to a manifest exactly when they are its encoding, the schema is right and the files are in path order |
| Manifest.ParsedIsCanonical | pkg/manifest/manifest.go:53-85 | with nothing assumed of JSON: what parses is followed by nothing, has the schema, and is the encoding of its manifest in path order up to newlines at the end |
| SigFile.WrittenLinesAreRead | cmd/bundle-sign/main.go:60-67 | the scanner and field splitter of the verifiers read back exactly the signatures the producer wrote |
| SigFile.LinesAre | pkg/manifest/sign.go:100-112 | how any text is cut: at newlines, the rest as a last line if it is not empty, and a line of 65536 bytes or more ends the scan |
| SigFile.WordsAre | pkg/signer/signer.go:70-73 | how any line is cut: blanks are passed over and a word goes up to the next |
| Quorum.CollectMeets | pkg/signer/trust.go:170-217 | the loop goes through exactly when every entry that is not blank is good and nobody repeats, and reports the signers in order |
| Quorum.EnoughIffMeets | pkg/signer/trust.go:209-216 | with the threshold: accepted exactly when there are also enough different people |
| Quorum.MeetsAs | pkg/signer/trust.go:170-217 | the threshold on the entries themselves: each is blank or signed by somebody, nobody signs two, and enough are not blank |
| Quorum.MeetsIsOrderFree | pkg/manifest/sign.go:100-141 | reordering a signature file changes no answer |
| Quorum.CollectFailsEarly | pkg/signer/trust.go:178-207 | the first entry that cannot be accepted decides, whatever follows |
| Signer.VerifyAll | pkg/signer/trust.go:170-217 | accepts exactly the files whose non-blank lines are all trusted and verify, by pairwise different people, at least the threshold of them |
| Signer.AcceptedIff | pkg/signer/trust.go:170-217 | accepted exactly if every line is blank or signed by a person, no two by one person, and enough are signed; who that is, by which key and algorithm, over which bytes, is spelled out in `SignedByPerson` |
| Signer.LineIsJudged | pkg/signer/signer.go:68-87 | the person one line is signed by, and for each error the lines it is given for |
| Signer.FirstRefusedLine | pkg/signer/trust.go:178-207 | behind accepted lines the first that cannot be decides: with its own error, or as a repeated person |
| Signer.KeyTestIsRedundant | pkg/signer/trust.go:198-203 | wherever the test on repeated key ids would refuse, the test on repeated people refuses too |
| Signer.SignatureOrderIsFree | pkg/signer/trust.go:170-217 | acceptance does not depend on the order of the lines |
| Signer.VerifySignatures | pkg/manifest/sign.go:100-141 | the same for software keys counted by key id, with the error of the first bad line |
| Signer.SignaturesDecide | pkg/manifest/sign.go:100-141 | accepted exactly if every line is blank or signed by a provisioned key, no two by one key, and enough are signed; else the fault of the first line that is not, and a lack of signatures only if there is none |
| Signer.BackendsAgree | pkg/signer/signer.go:117-127 | on unnamed ed25519 keys the two packages accept the same files with corresponding signers |
| Ingress.Gate.Verify | cmd/ingress-verify/main.go:84-144 | reports the earliest check that complains in authenticity, freshness, integrity order, with the notes before it; or, on a clean submission, manifest and root |
| Ingress.CleanIsAllThree | cmd/ingress-verify/main.go:84-144 | clean is exactly: a canonical manifest signed by two provisioned keys and nothing unsigned, a version above a readable stored one, and a store that is what the manifest says |
| Ingress.TwoPeopleSigned | cmd/ingress-verify/main.go:107-114 | an accepted bundle has two lines with different key ids, both provisioned, whose signatures verify over the raw manifest bytes |
| Ingress.OneSignerIsInsufficient | cmd/ingress-verify/main.go:107-114 | one good signature and blank lines get insufficient-signatures |
| Ingress.WithoutSignatureFile | cmd/ingress-verify/main.go:107-114 | a missing signature file is insufficient-signatures; one that is not a file is bad-signature |
| Ingress.TooFewIff | cmd/ingress-verify/main.go:113-117 | insufficient-signatures is given exactly if no line is at fault and no two are signed |
| Ingress.SignatureReasons | cmd/ingress-verify/main.go:173-194 | otherwise the reason is that of the first line at fault: repeated key, unknown key, bad signature, or one that cannot be read |
| Ingress.DecidedInOrder | cmd/ingress-verify/main.go:84-144 | which of authenticity, freshness and integrity failed, said of the submission; a later check is only reported if the earlier ones hold |
| Ingress.ReasonOfCheck | cmd/ingress-verify/main.go:173-194 | the reason reported for each check, those of the content check one by one |
| Ingress.Gate.LastAccepted | cmd/ingress-verify/main.go:151-164 | a missing version file reads as 0, an unreadable one is unverifiable, one that is not a number is a rollback |
| Ingress.SameVersionFileIff | cmd/ingress-verify/main.go:146-149 | two bundle ids share a version file exactly if they differ only by slashes against underscores |
| Ingress.Gate.Run | cmd/ingress-verify/main.go:196-218 | one run changes the version files and the log and prints a root as the outcome function says, for every log file and every fault of directory, version file and log |
| Ingress.Gate.AppendLog | cmd/ingress-verify/main.go:220-240 | the run may go on exactly if the log directory cannot be made, or the log opens, verifies and takes the whole entry; the entry that follows the last one is then what was appended, and a write that fails part way leaves the part |
| Ingress.WrittenVersionIsRead | cmd/ingress-verify/main.go:151-164 | a version that was written is read back |
| Ingress.EarliestIsUnique | cmd/ingress-verify/main.go:82-144 | the deciding complaint is unique, and there is none on a clean submission |
| Ingress.EarliestExists | cmd/ingress-verify/main.go:84-144 | a submission that is not clean has an earliest complaint |
| Ingress.RejectConsumesNothing | cmd/ingress-verify/main.go:196-203 | REJECT is exactly a complaint without a failure to open or append to the log; it names the earliest complaint, changes no version and publishes no root |
| Ingress.CleanRunIs | cmd/ingress-verify/main.go:205-240 | a clean submission is ACCEPT exactly if its version was stored and its acceptance logged, or no log directory made, and else ERROR; its root is printed exactly if the version was stored; and which version files are left |
| Ingress.OtherRunIs | cmd/ingress-verify/main.go:196-240 | any other is REJECT with the reason of its earliest complaint exactly if that was logged, or no log directory made, and else ERROR; nothing is printed or changed |
| Ingress.DecisionsAreLogged | cmd/ingress-verify/main.go:196-240 | unless the log directory cannot be made, ACCEPT and REJECT mean that the log verified before and this decision was appended to it; if the entry can be stored, the log then verifies with it as the last entry exactly if it ended with a newline before; a broken log makes every run that reaches it end in ERROR and stays as it was |
| Ingress.PublishedIsStored | cmd/ingress-verify/main.go:205-218 | a published root belongs to an accepted manifest whose version is then stored |
| Ingress.CleanConforms | cmd/ingress-verify/main.go:135-143 | an accepted bundle is exactly what its manifest says |
| Ingress.TornWriteIsSafeIff | cmd/ingress-verify/main.go:209-212 | a partial write of a version is harmless, whatever was stored, exactly when it leaves no digit or all of them |
| Ingress.StoredVersionsNeverFall | cmd/ingress-verify/main.go:146-164 | over every sequence of runs without such a partial write no stored version falls |
| Ingress.PublishedVersionsIncrease | cmd/ingress-verify/main.go:116-133 | over every such sequence, the versions accepted under one version file strictly increase |
| Ingress.UnloggedAcceptanceIsSpent | cmd/ingress-verify/main.go:205-218 | if the log cannot be written the answer is ERROR, the version is advanced all the same, and the bundle is refused from then on |
| BundleSign.BundleDir.Produce | cmd/bundle-sign/main.go:24-80 | writes the canonical manifest over the measured payload and one line per key, and prints its root; or stops, before writing when the scan or a key fails |
| BundleSign.BundleDir.SignWith | cmd/bundle-sign/main.go:60-67 | one signature line per key, in order; a key that cannot be loaded stops everything |
| BundleSign.WrittenSignaturesMeetIff | cmd/bundle-sign/main.go:60-76 | the written file satisfies the verifier exactly when all its keys are provisioned, verify, differ, and are 2 or more |
| BundleSign.ProducedIsRead | cmd/bundle-sign/main.go:49-73 | the gate's parser finds the produced manifest canonical and reads it as it was |
| BundleSign.PayloadIsUnmoved | cmd/bundle-sign/main.go:38-76 | writing manifest and signatures leaves the measured payload as it was |
| BundleSign.ProducedIsAcceptedIff | cmd/bundle-sign/main.go:38-79 | the gate accepts a produced bundle exactly when every path is safe and allowed, the keys suffice and the version is above a readable stored one; it then publishes the root the producer printed |
| BundleSign.ProducedByKeysIsAcceptedIff | cmd/bundle-sign/main.go:38-79 | the same with matching keys: exactly if two or more signed, their ids differ and are provisioned, every path is admitted, and the version is fresh |
| BundleSign.ProducedMeetsTheChain | cmd/bundle-sign/main.go:38-55 | every produced and accepted bundle lists no path twice and no metadata, which the gate itself does not check |
| TpmLock.HolderSeesItsOwnMeasurement | pkg/tpmseal/tpmseal.go:65-82 | in every interleaving under one lock file there is one holder, and past its extend PCR 23 is the digest of its root alone |
| TpmSeal.RunKeepsInv | pkg/tpmseal/tpmseal.go:143-276 | every interleaving of the steps of any number of processes keeps the protocol's invariant, stops and torn writes included, as long as no tool outlives its process |
| TpmLock.UnsealAnswersForTheLastSeal | pkg/tpmseal/tpmseal.go:223-276 | an unseal releases exactly if its root decodes to the root last sealed into that directory, and then that secret |
| TpmLock.TwoLocksReleaseTheWrongSecret | pkg/tpmseal/tpmseal.go:53-62 | with two lock files there is an interleaving that releases a secret under a root it was not sealed to |
| TpmLock.SafeIffOneLock | pkg/tpmseal/tpmseal.go:53-82 | all interleavings are justified exactly when every process resolves the same lock file |
| TpmLate.RunKeepsInv | pkg/tpmseal/tpmseal.go:64-102 | if processes are killed during tool calls and the tools have their effect later, in any number and order, but never while a holder is between its read-back of the PCR and its object or answer, every run keeps the invariant and every answer is justified |
| TpmLate.LateEffectIsTheStep | pkg/tpmseal/tpmseal.go:96-112 | a late effect is what the step cut short would have done to the PCR, the directories and the seals |
| TpmLate.LateDigestSealsToTheWrongRoot | pkg/tpmseal/tpmseal.go:189-211 | one policy digest that comes late, while a provision has written its own, seals the secret to the other root |
| TpmLate.SafeIffLateEffectsMissTheWindow | pkg/tpmseal/tpmseal.go:136-158 | under one lock file, all such runs are justified exactly when late effects come at no point of that window; before it, the read-back finds them |
| TpmLock.ProvisionRun | pkg/tpmseal/tpmseal.go:173-219 | an undisturbed provision completes and leaves the secret sealed to its root |
| TpmLock.ResetRun | pkg/tpmseal/tpmseal.go:289-298 | an undisturbed reset leaves the PCR at 32 zeros and the lock free, and changes nothing else |
| TpmSeal.DecodeHexInjective | pkg/tpmseal/tpmseal.go:118-125 | roots in lower-case hexadecimal that decode alike are alike |
| TpmSeal.DecodeOfEncode | pkg/tpmseal/tpmseal.go:118-125 | decoding undoes hexadecimal encoding, in small or capital digits |
| SealTool.SignDir.DoSign | cmd/seal-tool/main.go:140-186 | SIGNED exactly if a secret is released, the artifact can be read and the file written; the file then holds ed25519, the key of the seed cut or zero-padded from the secret, and a signature that any fitting check finds valid for exactly this artifact; nothing else changes. A write that fails part way is an error and leaves the first bytes; after REFUSED there is no signature file exactly if there was none or it could be removed |
| SealTool.AcceptedRootIsMeasured | cmd/ingress-verify/main.go:135-143 | the root of an accepted manifest is the measured one |
| SealTool.SignedIffPayloadUnchanged | cmd/seal-tool/main.go:140-186 | from a conforming store through any interleaving of TPM users: SIGNED exactly when the payload is still, byte for byte, the accepted one, and then under the secret last sealed |
| SealTool.PublishedThenSignedIff | cmd/demo/main.go:390-423 | the same from the gate's own answer: if the root it published was sealed, SIGNED comes exactly when the payload is the submitted one |
| AuditLog.Scan | pkg/auditlog/auditlog.go:148-185 | counts the longest verifying prefix; a chain error names that count plus one and which of the four faults the line has, and a line too long for the scanner is its own error |
| AuditLog.ChainIff | pkg/auditlog/auditlog.go:148-185 | a clean log field by field: numbered from 1, each entry naming the hash before it, the first 64 zeros, and its own hash that of the whole entry with the hash field empty |
| AuditLog.Log.Open | pkg/auditlog/auditlog.go:87-109 | opens exactly the logs that verify, at their end |
| AuditLog.Log.Append | pkg/auditlog/auditlog.go:112-139 | writes the entry that follows the handle's last one behind whatever ends the file, or the first part of it if the write fails, and moves the handle only if the write was synced |
| AuditLog.PrefixVerifies | pkg/auditlog/auditlog.go:148-185 | every prefix of a clean log verifies |
| AuditLog.VerifiesIffAllFresh | pkg/auditlog/auditlog.go:87-139 | over every interleaving of handles, writes that fail part way included, the file verifies exactly if it did and each append wrote a whole line, to a file ending in a newline, from a handle at the entry count of that moment |
| AuditLog.BrokenFileIsNeverExtended | pkg/auditlog/auditlog.go:87-109 | a broken log is never opened and so never extended |
| AuditLog.SyncFailureMakesTheHandleStale | pkg/auditlog/auditlog.go:128-136 | after an append whose sync failed, the handle's next append breaks the log |
| AuditLog.TornLineBreaksTheNext | pkg/auditlog/auditlog.go:128-136 | after a write that failed part way the log can be opened exactly if the whole line but its newline is there; either way the next append breaks it, through a handle opened since as well |
| AuditLog.HeadBindsLog | pkg/auditlog/auditlog.go:64-73 | two verified logs with the same last hash are equal entry by entry, if JSON and the hash tell their entries apart; nothing is asked of what the log hashes |
| AuditLog.EditIsFound | pkg/auditlog/auditlog.go:64-73 | editing any field of the last line of a clean log, its hash left alone, is found |
| AuditLog.TamperedLogMovesHead | pkg/auditlog/auditlog.go:64-73 | any edit, removal or reorder that still verifies changes the head |
| Gate.NonBlank | pkg/gate/decision.go:233-241 | counts the entries that say something |
| Gate.Validate | pkg/gate/decision.go:119-229 | finds no problem exactly in a decision its stages support, and otherwise exactly the problems there are |
| Gate.ChecksIffSupported | pkg/gate/decision.go:197-215 | the checks amount to support with or without the rule against undecided stages in a rejection |
| Gate.Verify | pkg/gate/gate.go:45-85 | records the stages up to the first that does not pass, with its verdict, or says which could not run |
| Gate.RunnerIs | pkg/gate/gate.go:45-85 | in terms of the stages alone: the records are the results up to the first failed or undecided one, under the stage's own name where they give none; the decision is refused exactly for what is missing in it; the last record gives verdict and reason |
| Gate.RunnerCannotRun | pkg/gate/gate.go:45-60 | a stage that errs before any that ends the run gives its name as the error |
| Gate.SupportedIsReplayed | pkg/gate/gate.go:45-85 | every supported decision is what the runner returns on stages replaying its results, whatever follows them |
| Gate.RangeIsSupported | pkg/gate/decision.go:119-229 | the validator describes exactly the runner's outputs |
| Gate.RunnerRefusedOnlyForIncompleteness | pkg/gate/gate.go:77-85 | the runner's own decision is refused only for a missing id, missing not-proven text, no stage, or a malformed result |
| Dossier.Verify | pkg/dossier/verify.go:75-202 | the outcome, re-derived from the directory, and the exact condition for an empty problem list; Verified exactly if checks were made and all passed |
| Dossier.OutcomeIff | pkg/dossier/verify.go:75-202 | which of the four answers a directory gets: Unreadable without a decision that decodes, NotSelfContained without artifacts, UnsupportedClaim exactly if some claim fails, each spelled out, else Verified |
| Dossier.TamperedArtifactIsFound | pkg/dossier/verify.go:108-143 | changing the bytes of an artifact of a verified dossier makes it UnsupportedClaim, against whatever root |
| Dossier.NothingRecordedIsNoProblem | pkg/dossier/verify.go:55-106 | a supported decision without artifacts has no problem listed and is not Verified |
| Dossier.SealedDossierVerifiesIffUnchanged | pkg/dossier/verify.go:75-176 | against the root measured when it verified, a dossier verifies exactly if its payload is unchanged |
| Dossier.AnswerFromPayload | pkg/dossier/verify.go:75-176 | the verifier's answer depends on the payload bytes, and on whether everything is a file or a directory, and on nothing else |
| Dossier.CleanNamesCoverCleanly | pkg/contentstore/contentstore.go:76-107 | in a tree of clean names an artifact path that is covered as written is clean, which is what the previous row asks |
| Dossier.DossierDir.CopySources | pkg/dossier/emit.go:54-72 | each readable, named source is staged and recorded with the hash of what was copied |
| Dossier.DossierDir.MoveIn | pkg/dossier/emit.go:74-95 | artifacts move in before the decision, and the decision is the last file to appear; between the two the directory holds the artifacts without a decision |
| Dossier.DossierDir.Emit | pkg/dossier/emit.go:41-95 | wherever the process stops, or a step returns an error and the staging directory is removed, a reader finds no decision, so Unreadable, or the complete dossier; an error of the second rename leaves the artifacts without a decision |
| Dossier.EmittedVerifiesIff | pkg/dossier/emit.go:41-95 | the emitted dossier verifies exactly if its decision is supported, it has artifacts, and their paths are clean and hold what was recorded |
| Dossier.EmitThenVerify | pkg/dossier/emit.go:41-95 | with plain roles: exactly if the decision is supported and some source is named |
| Dossier.ValidTextIsEncodable | pkg/dossier/emit.go:74-80 | it is enough for an emission that JSON loses nothing of valid text and that roles, paths and digests are valid text |
| Dossier.PlainRolesAreClean | pkg/dossier/emit.go:54-72 | roles without dots and slashes give artifact paths that are clean and apart |
| Dossier.ExtIs | pkg/dossier/emit.go:69-69 | the extension kept in an artifact path is what stands from the last dot of the last element on |
| Dossier.EmptyStageIsHarmless | pkg/dossier/emit.go:42-49 | an emptied staging directory left behind changes no answer |
| Dossier.NoDecisionIsUnreadable | pkg/dossier/verify.go:75-86 | without a decision file the answer is Unreadable, whatever is being staged |
| Challenge.Checkout.NewestOutput | pkg/revert/challenge.go:214-239 | the newest of the directories the invocation made, or none exactly if it made none |
| Challenge.Checkout.OutputSet | pkg/revert/challenge.go:203-210 | the output directories of this kind that are there |
| Challenge.Checkout.ResetToPin | pkg/revert/challenge.go:82-99 | runs the three git commands in order, and succeeds exactly if the tree was then seen to be clean |
| Challenge.Checkout.Apply | pkg/revert/challenge.go:101-110 | applies this patch, and succeeds exactly if git does |
| Challenge.Checkout.Build | pkg/revert/challenge.go:121-144 | runs the build once, and succeeds exactly if the newest directory it made records exit code 0 |
| Challenge.Checkout.RunPoV | pkg/revert/challenge.go:149-200 | runs this blob once, and reads harness, sanitizer and site from the newest directory that made, whatever run.sh returned; what that means for a verdict is `StageRuns.NoVerdictUnmeasured` |
| Challenge.StaleOutputsAreIgnored | pkg/revert/challenge.go:203-239 | changing what older directories held, before or after, changes nothing that is answered |
| StageRuns.RunUnpatched | pkg/revert/revert.go:73-98 | as both stages begin: reset, build and run of the submitted tree, one event each, or an error at the first that fails or does not execute |
| StageRuns.NothingMeasuredIsNoVerdict | pkg/revert/revert.go:73-193 | in M1 and M3 alike the answer is an error exactly if a reset, build or run failed or a harness did not execute |
| StageRuns.NoVerdictUnmeasured | pkg/revert/challenge.go:82-200 | a report without "Running: " in the file the case names, a build without a recorded exit code 0, or a tree not seen clean makes the answer an error, there and then |
| StageRuns.ClearIff | pkg/revert/challenge.go:82-200 | there is a verdict exactly if all was measured; a run fired exactly if its own report holds the expected sanitizer, and the site is that of this report |
| StageRuns.RunIsCommanded | pkg/revert/challenge.go:82-200 | the operations follow one another through the worlds that the commands, with the job's patch and blob, lead to |
| StageRuns.EventsDecide | pkg/revert/revert.go:73-193 | the same events give the same verdict, in M1 and M3 alike |
| Revert.Run | pkg/revert/revert.go:73-193 | for every machine: the events from the world before to the world after are reset, build, run, apply, build, run of this job, up to the first that settles the matter, and the answer is what they say |
| Revert.CreditIff | pkg/revert/revert.go:73-193 | exactly when M1 passes, fails and is undecided, in terms of the reports, exit codes and directories that the commands left |
| Revert.ReasonIs | pkg/revert/revert.go:100-193 | the reason that goes with each verdict |
| Revert.CreditRestsOnItsOwnOutput | pkg/revert/challenge.go:112-200 | behind a pass stand two recorded successes and two reports, each from a directory its own invocation made: without the patch the harness ran and the sanitizer is named, with it the harness ran and the sanitizer is not |
| Sanitizer.Run | pkg/sanitizer/sanitizer.go:58-143 | refuses to grade a halting build; otherwise the events from the world before to the world after are its seven operations, up to the first that settles the matter, and the answer is what they say |
| Sanitizer.ErrorsAreFaults | pkg/sanitizer/sanitizer.go:58-108 | the seven operations in order, the second reset among them; an error is a refusal to grade or something not measured, never a verdict |
| Sanitizer.PassIff | pkg/sanitizer/sanitizer.go:80-143 | exactly when M3 passes and fails, in terms of what the commands left, with the reason; it is never undecided |
| Sanitizer.PassRestsOnItsOwnOutput | pkg/sanitizer/sanitizer.go:76-114 | behind a pass stand two recorded successes and two reports that the harness ran, each from a directory its own invocation made |
| Sanitizer.StagesAgree | pkg/sanitizer/sanitizer.go:116-142 | on the same patched run M3 passes what M1 credits and, besides, only the original finding; both name a new finding alike; where the site cannot be told M1 is undecided and M3 fails |
| ClassReplay.OssFuzzTarget.Generate | pkg/classreplay/ossfuzz.go:58-96 | the members up to the bound, each a file of the members directory beside what was there, and the declared size; an error without a declared size or generator |
| ClassReplay.MembersAreDistinct | pkg/classreplay/ossfuzz.go:84-88 | members of different lengths have different names |
| ClassReplay.OssFuzzTarget.ReplayAgainst | pkg/classreplay/ossfuzz.go:105-158 | whatever patch was in the tree, what is observed comes after checkout, reset and clean, this patch applied and a build, all of which succeeded, over the members directory as it is, and nothing empty is returned |
| ClassReplay.ReadObservations | pkg/classreplay/ossfuzz.go:144-151 | the loop reads the last line about each member |
| ClassReplay.LastLineCounts | pkg/classreplay/ossfuzz.go:144-151 | a member is read as the last line about it says, and is missing exactly if no line is about it |
| ClassReplay.CompleteObserver | pkg/classreplay/ossfuzz.go:142-151 | a report of one line per member is read back complete, with what it says of each |
| ClassReplay.LoopGoesThrough | corpus/falsifying-class/libpng-iccp/observe.sh:57-65 | an observer that prints one line for each file of the members directory, in any order, is read as telling of exactly these files |
| ClassReplay.GoingThroughTells | pkg/classreplay/ossfuzz.go:130-151 | such an observer, complaints between its lines or not, tells of every member of a run, whatever its bound and whatever else lies in the directory |
| ClassReplay.Run | pkg/classreplay/classreplay.go:73-247 | answers from two replays of the generated members as the comparison says, and with an error exactly if there were none or a member was not compared |
| ClassReplay.NoReferenceNeverDecides | pkg/classreplay/classreplay.go:163-207 | without a reference fix the stage only says undecided or error |
| ClassReplay.VerdictIff | pkg/classreplay/classreplay.go:209-247 | with one, and an observer that tells of the members generated for the run: fails exactly on a difference within the bound, is undecided as truncated exactly if there is none and the class goes on, passes exactly if there is none and that is all of it |
| ClassReplay.LoopVerdictIff | pkg/classreplay/classreplay.go:209-247 | for an observer that goes through its directory, the verdict of any run, truncated or not, is that comparison, with no further condition on the observer |
| ClassReplay.FailurePersists | pkg/classreplay/classreplay.go:209-243 | once a bound yields class-replay-fail, so does every larger one that can be run, each run with a members directory of its own and told only of its own members |
| Fido.Store.VerifyAll | pkg/fido/signers.go:62-90 | accepts exactly the batches of good assertions by enough different people; changes nothing |
| Fido.VerifyDecides | pkg/fido/fido.go:149-210 | what is accepted: for this relying party, touched, verified if asked, signed over this manifest, its counter above the last or none where allowed; and which error otherwise |
| Fido.NotForParty | pkg/fido/fido.go:120-170 | the error for an assertion of another credential, party or form |
| Fido.BatchAcceptedIff | pkg/fido/signers.go:62-90 | a batch is accepted exactly if each assertion is good against the stored counter, no two are by one person, and there are enough |
| Fido.FirstRefusedDecides | pkg/fido/signers.go:62-90 | behind good assertions by different people the first other one decides, as unknown credential, with its own error, or as a repeated signer; with none there are too few |
| Fido.Store.Commit | pkg/fido/signers.go:92-98 | stores the reading of every counter-checked result under its assertion's credential |
| Fido.AcceptedResults | pkg/fido/signers.go:62-90 | the results of an accepted batch stand for its assertions one by one, and their credentials differ |
| Fido.BatchRaisesCounters | pkg/fido/signers.go:62-98 | committing an accepted batch raises every checked counter to the accepted reading and lowers none |
| Fido.CountersNeverFall | pkg/fido/fido.go:149-210 | over every run no counter falls |
| Fido.NoReplay | pkg/fido/fido.go:149-210 | an assertion once committed as counter-checked is never accepted again |
| Fido.ReplayIffUnchecked | pkg/fido/fido.go:180-203 | a committed batch can be replayed at once exactly if every counter in it is zero |
| Fido.BatchOrderIsFree | pkg/fido/signers.go:62-98 | reordering a batch changes neither its acceptance nor any counter after it |
| Eval.Score | pkg/eval/eval.go:75-139 | a matrix for exactly the stages observed, in strict order of name, each cell the number of results that belong there |
| Eval.ScoreNumbers | pkg/eval/eval.go:75-152 | each number of each matrix is the number of stage results of its kind, with the names of stages and the stage answerable for each reason written out |
| Eval.ScoreConserves | pkg/eval/eval.go:41-67 | the seven cells add up to the stage's results; matched and mismatched reasons add up to those rejected and undecided in scope |
| Eval.ScoreIsOrderFree | pkg/eval/eval.go:75-139 | the score does not depend on the order of the candidates |
| Eval.InScopeIffAnswerable | pkg/eval/eval.go:85-152 | a bad candidate can be in scope for a stage exactly if the stage's key owns a reason, or is empty as for an unclassified candidate |
| Eval.SanitizerIsNeverAnswerable | pkg/eval/eval.go:141-152 | M3's matrix never has a bad candidate in scope: rejected, undecided, accepted and both reason cells stay 0 |
| Png.Chunks | corpus/falsifying-class/libpng-iccp/mutate-class.py:29-43 | the loop reads the whole chunks from the signature on, not past an IEND |
| Png.ParsedAreChunks | corpus/falsifying-class/libpng-iccp/mutate-class.py:29-43 | each chunk is what stands at its place, they stand end to end, and reading stops at the first IEND or where no chunk fits |
| Png.Rebuild | corpus/falsifying-class/libpng-iccp/mutate-class.py:46-52 | the loop writes signature and chunks with recomputed checksums |
| Png.RebuiltComesApart | corpus/falsifying-class/libpng-iccp/mutate-class.py:29-52 | a rebuilt file comes apart into its chunks, with new checksums and true offsets, up to the first IEND; into all of them exactly when IEND is at most once and last |
| Png.RebuiltIsOriginalIff | corpus/falsifying-class/libpng-iccp/mutate-class.py:29-52 | taking apart and rebuilding gives a file back exactly when it is signature, whole chunks up to IEND or its end, and right checksums |
| Png.Naive | corpus/falsifying-class/libpng-iccp/mutate-class.py:55-61 | overwrites bytes after the signature as drawn, and fails exactly if there are none |
| Png.LastDrawWins | corpus/falsifying-class/libpng-iccp/mutate-class.py:55-61 | each byte is the seed's or that of the last draw on it; the signature stays |
| Png.CrcRepaired | corpus/falsifying-class/libpng-iccp/mutate-class.py:64-81 | writes the seed's chunks as the draws change them; the result parses into the same types, lengths and places with right checksums, and with no draws a well-formed seed comes back as it was |
| Png.EachDrawSetsOneByte | corpus/falsifying-class/libpng-iccp/mutate-class.py:64-77 | no draw changes nothing, and each draw sets the drawn byte of the drawn chunk to the drawn value |
| Png.RepairedKeepsShape | corpus/falsifying-class/libpng-iccp/mutate-class.py:64-81 | for any draws the result parses into the seed's chunk types, lengths and offsets, every checksum right |

## Left out

- Cryptography, `ssh-keygen`, tpm2-tools, base64 and the JSON library are foreign: parameters of the model.
- UTF-8: strings are one character per byte, so Unicode white space beyond ASCII goes by code point, and that JSON loses nothing is a hypothesis, which holds for valid UTF-8 only.
- Loading key files, trust stores and enrolments: line parsing into maps, with no state afterwards.
- I/O errors while hashing a payload file, permissions, and symbolic links: a tree entry is a file, a directory or something else; `manifest.json` and `decision.json` are read as what they are, not through a link.
- TpmLate.RunKeepsInv: a late tool has read its inputs when its process is killed, and its effect is one step.
- TpmSeal.RunKeepsInv: tools end before their process does (`TpmLate.dfy` is about those that do not); processes are steps on a state value and not methods on objects, because interleavings are the point; the PCR's update counter and stale TPM contexts are not modelled.
- TpmLock.UnsealAnswersForTheLastSeal: asks that the two measurements involved do not collide under the PCR hash and the policy hash.
- SealTool.SignDir.DoSign: `sigRemovable` is by definition the success of removing the file; that a removal can fail without a word is the tool's behaviour, not an assumption.
- SealTool.SignedIffPayloadUnchanged: asks for a file system that lets the tool write; what happens otherwise is in `SealTool.SignDir.DoSign`. Driving a dossier after signing adds a signature file to the measured directory and is outside the statement.
- AuditLog.Log.Append: the sequence number does not wrap around.
- AuditLog.VerifiesIffAllFresh: for entries that survive being written and scanned back, that is, valid UTF-8 and a line under 4 MiB; other entries are only known to be able to break the log. That no part of a JSON object, and no run of such parts, reads as an entry is a hypothesis (`Whole`).
- Dossier.DossierDir.Emit: asks that JSON loses nothing of the decision with any artifact list that these sources can give, which fails for text that is not valid UTF-8; source roles containing a slash, and emitting into a directory that already holds a decision or artifacts, are not modelled.
- Ingress.StoredVersionsNeverFall: one gate at a time; two gates on one state directory are not modelled. A run is judged by the first fault it meets.
- Ingress.DecisionsAreLogged: the detail of an entry is a parameter, one for acceptances and one for each reason.
- Challenge.Checkout.RunPoV: the comparison of crash sites and `filepath.Abs` are not modelled; the site is an input with three values.
- ClassReplay.VerdictIff: for an observer that, whenever it answers, says the same of each member of the run; for one that does not, the verdict is only tied to what was read (`ClassReplay.Run`). `normalise` is a parameter, and the members directory is known by the names of its files.
- ClassReplay.OssFuzzTarget.ReplayAgainst: `git clean -qfd` keeps ignored files, so build residue of an earlier replay can survive a reset; the pinned tree of the model is pinned up to such files, and what they do to an observation is part of its time argument.
- ClassReplay.OssFuzzTarget.Reset: after a failed reset the tree is unknown, where the code may have changed it only in part.
- Fido.NoReplay: the signature over an assertion is a parameter; saving the store to disk is not modelled.
- Eval.Score: `Sound` and the printing of matrices.
- Evidence texts, log details, timestamps, exit codes and usage errors of the commands.
- pkg/egress, the BPF program, host capability probing, the demo, drive and contained-run commands, crash report parsing and the hunk fixer: plumbing, or single-branch decisions.
