/** Validation and normalisation of the error threshold handed to a robust
    estimator (`checkRobustEstimator`). Only the a-contrario RANSAC and the
    locally-optimised RANSAC are supported; the a-contrario variant reads a
    threshold of 0 as "choose it yourself" (+infinity), the locally-optimised
    one needs a strictly positive threshold. */
module RobustEstimator {

  /** The robust-estimator kinds the command line can name. */
  datatype Estimator =
    | ACRansac
    | LORansac
    | OtherEstimator(name: string)

  /** A threshold value as a double: a finite real or +infinity, which the
      a-contrario estimator reads as "estimate the threshold automatically". */
  datatype Threshold = Finite(value: real) | Auto

  /** Smallest threshold the locally-optimised estimator refuses to go below. */
  const LORansacMinThreshold: real := 0.000001

  datatype CheckError = UnsupportedEstimator | ThresholdTooSmall

  /** Outcome of the check: the (possibly rewritten) threshold, or the reason
      the pair was refused. On a refusal the caller's value is left alone. */
  datatype Checked = Accepted(threshold: Threshold) | Rejected(error: CheckError)

  /** `value <= bound` on doubles, with +infinity above every real. */
  predicate AtMost(value: Threshold, bound: real) {
    value.Finite? && value.value <= bound
  }

  predicate Supported(e: Estimator) {
    e.ACRansac? || e.LORansac?
  }

  function CheckRobustEstimator(e: Estimator, value: Threshold): (r: Checked)
    // any estimator other than the two supported ones is refused, whatever the value
    ensures !Supported(e) <==> r == Rejected(UnsupportedEstimator)
    // the a-contrario estimator always succeeds; exactly the zero becomes Auto
    ensures e.ACRansac? ==> r.Accepted?
    ensures e.ACRansac? ==> (r.threshold.Auto? <==> value.Auto? || value == Finite(0.0))
    // the locally-optimised estimator fails exactly on thresholds at or below 1e-6
    ensures e.LORansac? ==> (r == Rejected(ThresholdTooSmall) <==> AtMost(value, LORansacMinThreshold))
    // an accepted value is returned unchanged, except the a-contrario zero
    ensures r.Accepted? && !(e.ACRansac? && value == Finite(0.0)) ==> r.threshold == value
  {
    if !Supported(e) then
      Rejected(UnsupportedEstimator)
    else
      var normalised := if value == Finite(0.0) && e.ACRansac? then Auto else value;
      if e.LORansac? && AtMost(normalised, LORansacMinThreshold) then
        Rejected(ThresholdTooSmall)
      else
        Accepted(normalised)
  }

  /** The thresholds an estimator can be run with once the check has passed:
      a-contrario takes anything but a literal zero (the zero has become Auto),
      locally-optimised takes only values strictly above 1e-6. */
  predicate Admissible(e: Estimator, t: Threshold) {
    match e
    case ACRansac => t != Finite(0.0)
    case LORansac => !AtMost(t, LORansacMinThreshold)
    case OtherEstimator(_) => false
  }

  /** Whatever the check accepts is admissible for that estimator. */
  lemma AcceptedIsAdmissible(e: Estimator, value: Threshold)
    requires CheckRobustEstimator(e, value).Accepted?
    ensures Admissible(e, CheckRobustEstimator(e, value).threshold)
  {
  }

  /** The values the check leaves untouched are exactly the admissible ones. */
  lemma FixedPointsAreAdmissible(e: Estimator, value: Threshold)
    ensures CheckRobustEstimator(e, value) == Accepted(value) <==> Admissible(e, value)
  {
  }

  /** Checking an already checked threshold again changes nothing. */
  lemma CheckIdempotent(e: Estimator, value: Threshold)
    requires CheckRobustEstimator(e, value).Accepted?
    ensures var t := CheckRobustEstimator(e, value).threshold;
            CheckRobustEstimator(e, t) == Accepted(t)
  {
  }

  /** The locally-optimised estimator never produces Auto from a finite value. */
  lemma LORansacKeepsFinite(value: real)
    ensures var r := CheckRobustEstimator(LORansac, Finite(value));
            r.Accepted? ==> r.threshold == Finite(value) && value > LORansacMinThreshold
  {
  }
}
