/** The checks `main` makes before the first frame: both estimator
    thresholds, the number of media paths against the number of intrinsics
    files, and the number of rig subposes against the number of cameras. */
module Startup {
  import opened RobustEstimator

  /** What the command line supplies to the checks. */
  datatype Options = Options(
    matchingEstimator: Estimator,
    matchingError: Threshold,
    resectionEstimator: Estimator,
    resectionError: Threshold,
    mediaPaths: nat,
    cameraIntrinsics: nat)

  /** The validated parameters the localizer is configured with. */
  datatype Settings = Settings(
    matchingEstimator: Estimator,
    matchingError: Threshold,
    resectionEstimator: Estimator,
    resectionError: Threshold,
    numCameras: nat)

  datatype StartupError =
    | MatchingRejected(reason: CheckError)
    | ResectionRejected(reason: CheckError)
    | CameraCountMismatch

  datatype Configured = Configured(settings: Settings) | StartupFailed(error: StartupError)

  /** The matching threshold is checked first and a failure there stops
      everything (the `||` short-circuits), then the resection threshold,
      then the camera count. */
  function CheckOptions(o: Options): (r: Configured)
    ensures var m := CheckRobustEstimator(o.matchingEstimator, o.matchingError);
            var s := CheckRobustEstimator(o.resectionEstimator, o.resectionError);
            && (r.Configured? <==> m.Accepted? && s.Accepted? && o.mediaPaths == o.cameraIntrinsics)
            && (m.Rejected? ==> r == StartupFailed(MatchingRejected(m.error)))
            && (m.Accepted? && s.Rejected? ==> r == StartupFailed(ResectionRejected(s.error)))
            && (r == StartupFailed(CameraCountMismatch) <==>
                  m.Accepted? && s.Accepted? && o.mediaPaths != o.cameraIntrinsics)
            && (r.Configured? ==>
                  r.settings == Settings(o.matchingEstimator, m.threshold,
                                         o.resectionEstimator, s.threshold, o.mediaPaths))
  {
    match CheckRobustEstimator(o.matchingEstimator, o.matchingError)
    case Rejected(e) => StartupFailed(MatchingRejected(e))
    case Accepted(matching) =>
      match CheckRobustEstimator(o.resectionEstimator, o.resectionError)
      case Rejected(e) => StartupFailed(ResectionRejected(e))
      case Accepted(resection) =>
        if o.mediaPaths != o.cameraIntrinsics then
          StartupFailed(CameraCountMismatch)
        else
          Configured(Settings(o.matchingEstimator, matching, o.resectionEstimator, resection, o.mediaPaths))
  }

  /** A refused matching threshold is reported whatever the resection
      estimator and threshold are: they are never looked at. */
  lemma MatchingCheckedFirst(o: Options, e: Estimator, t: Threshold)
    requires CheckRobustEstimator(o.matchingEstimator, o.matchingError).Rejected?
    ensures CheckOptions(o.(resectionEstimator := e, resectionError := t)) == CheckOptions(o)
    ensures CheckOptions(o).StartupFailed? && CheckOptions(o).error.MatchingRejected?
  {
  }

  /** A camera count mismatch is only reported once both thresholds passed. */
  lemma ThresholdsCheckedBeforeCounts(o: Options)
    requires CheckOptions(o) == StartupFailed(CameraCountMismatch)
    ensures CheckRobustEstimator(o.matchingEstimator, o.matchingError).Accepted?
    ensures CheckRobustEstimator(o.resectionEstimator, o.resectionError).Accepted?
  {
  }

  /** `std::size_t` holds values below 2^64. */
  const SizeModulus: nat := 0x1_0000_0000_0000_0000

  /** `numCameras - 1` evaluated in `std::size_t`, where 0 - 1 wraps round. */
  function SizeDecrement(n: nat): (d: nat)
    requires n < SizeModulus
    ensures d < SizeModulus
    ensures n >= 1 ==> d + 1 == n
    ensures n == 0 ==> d == SizeModulus - 1
  {
    (n as int - 1) % SizeModulus
  }

  /** The number of subposes held after loading: the calibration file is only
      read when the rig has more than one camera. */
  function LoadedSubposes(numCameras: nat, inFile: nat): (loaded: nat)
    ensures numCameras > 1 ==> loaded == inFile
    ensures numCameras <= 1 ==> loaded == 0
  {
    if numCameras > 1 then inFile else 0
  }

  /** The assertion that the rig holds one subpose per camera but the first. */
  function SubposesMatch(numCameras: nat, inFile: nat): (ok: bool)
    requires numCameras < SizeModulus && inFile < SizeModulus
    ensures ok <==> numCameras >= 1 && (numCameras > 1 ==> inFile == numCameras - 1)
  {
    LoadedSubposes(numCameras, inFile) == SizeDecrement(numCameras)
  }
}
