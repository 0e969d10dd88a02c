# Rig localization pipeline — a verified model

This project models the orchestration core of AliceVision's rig localizer
(`main_rigLocalization.cpp`). The localizer finds the pose of a rigidly mounted
multi-camera rig frame by frame. The model covers four parts:

- **Threshold validation** (`checkRobustEstimator`). Only the a-contrario
  RANSAC and the locally-optimised RANSAC are accepted. For the a-contrario
  estimator a threshold of exactly 0 becomes +∞ ("estimate it yourself").
  The locally-optimised estimator refuses any threshold at or below 1e-6.
- **Zero-padded formatting** (`myToString`). This is `setw` + `setfill('0')`.
  It names the per-camera tracks and files and labels the frames.
- **Startup checks**. The matching threshold is checked first, then the
  resection threshold (the `||` short-circuits), then the camera count against
  the intrinsics count. After that comes the assertion that the rig holds
  `numCameras - 1` subposes, computed in `std::size_t`.
- **The frame loop**. For each frame, every camera is read and advanced before
  its read is checked. Camera 0 without an image ends the stream normally.
  A later camera without an image is a desync and aborts the run. A camera
  with an image but no intrinsics also aborts the run. Each attempted frame
  appends one result and one duration sample. It also appends one keyframe or
  jump event to the rig track and to each camera track. The frame counter and
  the localized-frame counter are kept.

The outside world becomes inputs. A camera feed is a sequence of
`(hasImage, hasIntrinsics)` records, and reading past its end gives no image.
The localisation engine is a sequence of per-frame "localized" verdicts. The
clock is a sequence of per-frame durations in milliseconds. The whole run is a
pure recursive function, so replaying the same inputs gives the same results.

Files and modules: `estimator.dfy` (`RobustEstimator`), `zero_padding.dfy`
(`ZeroPadding`), `statistics.dfy` (`Statistics`), `frame_loop.dfy`
(`FrameLoop`), `loop_properties.dfy` (`LoopProperties`), `startup.dfy`
(`Startup`), `pipeline.dfy` (`RigLocalization`).

Three behaviours of the code are easy to misread:

- An aborted run (desync or missing intrinsics) returns `EXIT_FAILURE` at once
  and prints no statistics. The report exists only after a normal end.
- Feed 0 alone decides the end of the stream. Suppose feed 0 has no image at
  frame K while another feed still has one. The code does not read the other
  feeds and ends the run normally. It does not report a desync
  (`LoopProperties.FeedZeroDecidesEnd`). A desync is reported only when
  camera 0 delivered and a later camera did not.
- With a single camera the calibration file is never read. A calibration
  holding subposes is therefore not an error for one camera
  (`RigLocalization.SingleCameraIgnoresCalibration`).

## Model

| member | source | states |
|---|---|---|
| RobustEstimator.CheckRobustEstimator | src/software/pipeline/main_rigLocalization.cpp:60-90 | any estimator other than ACRANSAC/LORANSAC is refused whatever the value; ACRANSAC always succeeds and turns exactly 0 into +∞; LORANSAC fails exactly when the value is ≤ 1e-6; every other accepted value is returned unchanged |
| RobustEstimator.AcceptedIsAdmissible | src/software/pipeline/main_rigLocalization.cpp:60-90 | an accepted threshold is one its estimator can run with (no literal 0 for ACRANSAC, above 1e-6 for LORANSAC) |
| RobustEstimator.FixedPointsAreAdmissible | src/software/pipeline/main_rigLocalization.cpp:60-90 | the check leaves a value untouched exactly when the value is admissible for the estimator |
| RobustEstimator.CheckIdempotent | src/software/pipeline/main_rigLocalization.cpp:70-89 | checking an accepted threshold a second time accepts it unchanged |
| RobustEstimator.LORansacKeepsFinite | src/software/pipeline/main_rigLocalization.cpp:77-89 | LORANSAC never turns a finite threshold into +∞; what it accepts is the input and lies above 1e-6 |
| ZeroPadding.Decimal | src/software/pipeline/main_rigLocalization.cpp:44-49 | the digits streamed for a number are non-empty decimal digits, with a leading '0' only for zero |
| ZeroPadding.ZeroPadded | src/software/pipeline/main_rigLocalization.cpp:44-49 | the padded string has length max(width, number of digits), so it never truncates; it ends with the number's digits and every character before them is '0' |
| ZeroPadding.ParseDecimal | src/software/pipeline/main_rigLocalization.cpp:44-49 | reading the streamed digits back gives the number |
| ZeroPadding.ParseIgnoresLeadingZeros | src/software/pipeline/main_rigLocalization.cpp:44-49 | leading fill characters do not change the value read back |
| ZeroPadding.ParsePadded | src/software/pipeline/main_rigLocalization.cpp:44-49 | reading the padded string back gives the number, for every width |
| ZeroPadding.StripPadded | src/software/pipeline/main_rigLocalization.cpp:44-49 | stripping the leading zeros leaves the shortest spelling (empty for 0), and parsing it gives back the number |
| ZeroPadding.ZeroPaddedInjective | src/software/pipeline/main_rigLocalization.cpp:44-49 | two numbers with the same padded spelling are equal, whatever the widths |
| ZeroPadding.FrameLabelShape | src/software/pipeline/main_rigLocalization.cpp:485 | the `FRAME` label is four characters up to frame 9999 and wider after it, never truncated, and reads back as the frame number |
| ZeroPadding.CameraNamesDistinct | src/software/pipeline/main_rigLocalization.cpp:383-390 | distinct cameras get distinct track names `camNN` and distinct export files `<base>.camNN.abc` |
| Statistics.Add | src/software/pipeline/main_rigLocalization.cpp:498 | feeding one duration sample adds exactly one to the sample count |
| Statistics.AddAll | src/software/pipeline/main_rigLocalization.cpp:498 | feeding a sequence of samples adds its length to the count |
| Statistics.SummarizeDescribes | src/software/pipeline/main_rigLocalization.cpp:429-431 | the accumulator agrees with the reference definitions: its count is the number of samples, its sum is their total, and its min and max are samples bounding all the others |
| Statistics.AddAllAppend | src/software/pipeline/main_rigLocalization.cpp:498 | feeding two stretches of samples one after the other equals feeding them together |
| FrameLoop.ReadCameras | src/software/pipeline/main_rigLocalization.cpp:444-476 | each camera is advanced right after its read; the first unusable camera stops the frame; it is EndOfStream only for camera 0 without an image, a desync for a later camera without an image, and missing intrinsics when it has an image; cameras after it are not read or advanced |
| FrameLoop.Bookkeep | src/software/pipeline/main_rigLocalization.cpp:498-534 | after the engine ran on frame k, whatever its verdict: the frame counter becomes k + 1, the verdict is appended to the results, the localized counter grows by one exactly when the frame was localized, the accumulator gains this frame's duration, and the rig track and every camera track gain the same single event, Keyframe(k) if localized and Jump otherwise |
| FrameLoop.RunFrom | src/software/pipeline/main_rigLocalization.cpp:436-482 | the loop processes frames while every camera delivers and stops at the first frame some camera cannot deliver; how that frame's acquisition failed decides the end, and the feed positions are those left by that acquisition |
| FrameLoop.RunFromStep | src/software/pipeline/main_rigLocalization.cpp:436-535 | a delivered frame is always one camera 0 still had, and after it every feed sits at the next frame |
| FrameLoop.RunFromResults | src/software/pipeline/main_rigLocalization.cpp:498-504 | every processed frame appends its verdict to the results and its duration to the accumulator, whatever the outcome; the localized counter grows by the number of localized frames; earlier entries are kept |
| FrameLoop.RunFromRigTrack | src/software/pipeline/main_rigLocalization.cpp:502-532 | the rig track gets one event per processed frame: a keyframe at the frame index if localized, otherwise a jump; earlier events are kept |
| FrameLoop.RunFromCameraTracks | src/software/pipeline/main_rigLocalization.cpp:502-532 | every camera track gets the same events as the rig track, one per processed frame, and no camera track is added or lost |
| LoopProperties.RunAccounting | src/software/pipeline/main_rigLocalization.cpp:418-504 | after a run, the results are the engine's verdicts for frames 0..k-1; numLocalizedFrames counts the true ones and is at most frameCounter; the accumulator holds exactly the k durations |
| LoopProperties.GapAlignment | src/software/pipeline/main_rigLocalization.cpp:502-532 | every track has one event per attempted frame, and event i is Keyframe(i) iff frame i was localized and Jump iff it was not; all camera tracks equal the rig track |
| LoopProperties.RunEndsAtFirstUnusableFrame | src/software/pipeline/main_rigLocalization.cpp:445-482 | the run ends at the first frame some camera cannot deliver; the run completes iff camera 0 has no image there; a desync names a later camera without an image, and missing intrinsics names a camera with an image but no intrinsics; cameras up to the failing one were advanced and the rest were not |
| LoopProperties.FeedZeroDecidesEnd | src/software/pipeline/main_rigLocalization.cpp:451-463 | when feed 0 holds K frames and all cameras deliver each of them, the run completes after exactly K frames, even if other feeds hold more |
| LoopProperties.EqualFeedsComplete | src/software/pipeline/main_rigLocalization.cpp:436-535 | when every feed yields exactly K frames, all with intrinsics, the run completes with frameCounter K, K results and K duration samples |
| LoopProperties.DesyncAborts | src/software/pipeline/main_rigLocalization.cpp:454-462 | when frames before K were delivered and at K a later camera c has no image while cameras before it deliver, the run aborts with a desync on c and exactly K results |
| Startup.CheckOptions | src/software/pipeline/main_rigLocalization.cpp:259-271 | startup succeeds iff both thresholds are accepted and the media and intrinsics counts agree; a refused matching threshold is the reported error; the resection error is reported only after the matching check passed; the count mismatch is reported exactly when both passed and the counts differ; on success the normalised thresholds and the camera count are kept |
| Startup.MatchingCheckedFirst | src/software/pipeline/main_rigLocalization.cpp:259-263 | once the matching threshold is refused, the resection estimator and threshold do not affect the outcome |
| Startup.ThresholdsCheckedBeforeCounts | src/software/pipeline/main_rigLocalization.cpp:259-270 | a camera count mismatch is only reported when both thresholds were accepted |
| Startup.SizeDecrement | src/software/pipeline/main_rigLocalization.cpp:426 | `numCameras - 1` in `std::size_t` is the predecessor for a positive count and wraps to 2^64 - 1 for zero |
| Startup.LoadedSubposes | src/software/pipeline/main_rigLocalization.cpp:423-425 | the calibration file is read only for more than one camera; otherwise no subpose is held, whatever the file contains |
| Startup.SubposesMatch | src/software/pipeline/main_rigLocalization.cpp:422-426 | the subpose assertion passes iff there is at least one camera and, with more than one, the calibration holds numCameras - 1 subposes |
| RigLocalization.Execute | src/software/pipeline/main_rigLocalization.cpp:259-436 | a startup refusal stops everything before any frame, with the check's error; the loop runs iff the checks pass and the subpose assertion holds, and then on a valid environment |
| RigLocalization.Exit | src/software/pipeline/main_rigLocalization.cpp:259-544 | the process succeeds exactly when the report is reached (falling off the end of `main`); a rig calibration mismatch is an assertion abort and nothing else is; refused options and aborted runs return `EXIT_FAILURE` |
| RigLocalization.ExitStatusCharacterised | src/software/pipeline/main_rigLocalization.cpp:436-544 | the process succeeds iff the checks pass and camera 0 is what ran out of images; the summary is reported exactly then |
| RigLocalization.ReportConsistent | src/software/pipeline/main_rigLocalization.cpp:537-543 | the report's localized count is the number of localized frames and at most the attempted count; the accumulator holds one sample per attempted frame and summarises exactly their durations |
| RigLocalization.SingleCameraIgnoresCalibration | src/software/pipeline/main_rigLocalization.cpp:422-426 | with one camera nothing is loaded from the calibration file and the loop runs whatever the file holds |
| RigLocalization.NoCameraAborts | src/software/pipeline/main_rigLocalization.cpp:422-426 | with no camera the subpose assertion fails, so the endless zero-camera loop is never entered |
| RigLocalization.ThreeFrameReport | src/software/pipeline/main_rigLocalization.cpp:498-543 | one camera, durations 10, 20 and 30 ms with outcomes localized, failed, localized gives 2 of 3 localized, sum 60, mean 20, min 10, max 30 |

## Left out

- Command-line parsing, the help and usage output and the parameter echo (lines 150-257, 283-318) are not modelled. They are interface plumbing.
- Localizer construction is not modelled: the choice between vocabulary tree and CCTag, `LocalizerParameters`, `isInit` and `localizeRig` (lines 320-373, 489-494). These are calls into the engine. The engine appears only as one "localized" verdict per frame.
- The per-camera `LocalizationResult`s and the poses are not modelled. `rigResultPerFrame` keeps only each frame's verdict.
- `FeedProvider` construction and its `isInit` failure are not modelled (lines 393-415). Neither are image decoding, intrinsics loading or image names. Feeds are record sequences.
- Rig calibration parsing is not modelled (line 425). Only the number of subposes the file holds is an input.
- The Alembic exporter internals are not modelled. Neither is landmark export (lines 376-378) or the `ALICEVISION_HAVE_ALEMBIC` build switch. The model assumes the exporter is built in and keeps only the keyframe/jump event log.
- Filesystem path derivation is not modelled (lines 384, 402-405). `ZeroPadding.CameraExportFile` takes the base name as given.
- `std::chrono` timing is not modelled (lines 487-496). Durations are input whole milliseconds. The floating-point printouts of sum/1000, mean, min and max are not modelled either (lines 540-543).
- `D2R` degree-to-radian conversion (line 367) is not modelled. It is floating point.
- RobustEstimator.CheckRobustEstimator: NaN, -∞ and -0.0 are not modelled. The bound 1e-6 is the exact real, not its nearest double. The refusal messages are not modelled.
- Startup.SubposesMatch: the `assert` at line 426 is modelled as an active check. In a build with `NDEBUG` it vanishes, and zero cameras would then enter an endless loop.
- ZeroPadding.ZeroPadded: the `std::size_t` range of the number and of the width is not modelled. Both are unbounded naturals.
- FrameLoop.RunFrom: `frameCounter` and `numLocalizedFrames` are unbounded. `std::size_t` wrap-around is out of reach in practice.
- FrameLoop.ValidEnv: the engine and the clock must answer for every frame that camera 0 can deliver. The model has no meaning for a frame with no verdict.
