/** pkg/corpus: the reason vocabulary, the stage answerable for each reason, and the
    three-valued comparison of crash sites. */
module Corpus {

  const EMPTY_PATCH := "empty-patch"
  const POV_NOT_REPRODUCED := "pov-not-reproduced"
  const PATCH_DOES_NOT_APPLY := "patch-does-not-apply"
  const POV_SITE_UNDETERMINED := "pov-site-undetermined"
  const REVERT_ATTRIBUTE_FAIL := "revert-attribute-fail"
  const CLASS_REPLAY_FAIL := "class-replay-fail"
  const CLASS_NOT_DEFINED := "class-not-defined"
  const CLASS_TRUNCATED := "class-truncated"
  const CLASS_OBSERVER_MISSING := "class-observer-missing"
  const CLASS_NO_REFERENCE := "class-no-reference"
  const NEW_SANITIZER_FINDING := "new-sanitizer-finding"
  const NEW_TEST_FAILURE := "new-test-failure"
  const UNADJUDICATED := "unadjudicated-behaviour-change"
  const NONDETERMINISTIC := "nondeterministic"

  const STAGE_M0 := "m0-patch-effect"
  const STAGE_M1 := "m1-revert-to-attribute"
  const STAGE_M2 := "m2-class-replay"
  const STAGE_M3 := "m3-sanitizer-reachability"
  const STAGE_M5 := "m5-non-determinism"
  const UNASSIGNED := "unassigned"

  /** Whether a report is about the declared crash site, another one, or cannot say. */
  datatype SiteMatch = Same | Differ | Undetermined

  function StageFor(reason: string): string {
    if reason == EMPTY_PATCH then STAGE_M0
    else if reason in {POV_NOT_REPRODUCED, PATCH_DOES_NOT_APPLY, REVERT_ATTRIBUTE_FAIL, POV_SITE_UNDETERMINED}
        then STAGE_M1
    else if reason in {CLASS_REPLAY_FAIL, CLASS_NOT_DEFINED, UNADJUDICATED, CLASS_NO_REFERENCE, CLASS_TRUNCATED,
        CLASS_OBSERVER_MISSING} then STAGE_M2
    else if reason in {NEW_SANITIZER_FINDING, NEW_TEST_FAILURE} then STAGE_M3
    else if reason == NONDETERMINISTIC then STAGE_M5
    else UNASSIGNED
  }
}
