/** Assessments and causes, shared by attribution and intervention: backend/app/pipeline/weakness.py. */
module Assessments {
  import opened Options

  datatype Gate = Open | NotLearned | Insufficient
  datatype Cause = Prerequisite | Forgetting | TooLittleData | Confusable

  /** One student at one point; `recall` and `apply` are the mastery at those cognitive levels. */
  datatype Assessment = Assessment(point: nat, gate: Gate, mastery: Option<real>, weak: bool, lowEvidence: bool,
                                   floor: real, recall: Option<real>, apply: Option<real>)

  /** Below this a prerequisite counts as weak, too. */
  const RootThreshold: real := 0.6

  ghost predicate DistinctPoints(s: seq<Assessment>) {
    forall i, k | 0 <= i < k < |s| :: s[i].point != s[k].point
  }
}
