/** The rig localizer from its startup checks to its exit status: the checks
    run first, then the frame loop, then the summary report. */
module RigLocalization {
  import opened RobustEstimator
  import opened Statistics
  import opened FrameLoop
  import opened Startup
  import opened LoopProperties

  /** One invocation: the command-line options, the number of subposes the
      rig calibration file holds, and the stand-ins for feeds, engine and clock.
      There is one feed per media path. */
  datatype Invocation = Invocation(options: Options, subposesInFile: nat, env: Env)

  predicate WellFormed(inv: Invocation) {
    && |inv.env.feeds| == inv.options.mediaPaths
    && inv.options.mediaPaths < SizeModulus
    && inv.subposesInFile < SizeModulus
    && (|inv.env.feeds| >= 1 ==>
          |inv.env.localized| >= |inv.env.feeds[0]| && |inv.env.durations| >= |inv.env.feeds[0]|)
  }

  datatype Outcome =
    | RefusedAtStartup(error: StartupError)   // EXIT_FAILURE before any frame
    | RigCalibrationMismatch                  // the subpose assertion fails
    | Ran(run: Run)

  datatype ExitStatus = ExitSuccess | ExitFailure | Aborted

  /** The summary printed after the loop: localized over attempted frames and
      the timing statistics. */
  datatype Report = Report(localized: nat, attempted: nat, stats: Accumulator)

  function Execute(inv: Invocation): (o: Outcome)
    requires WellFormed(inv)
    ensures var c := CheckOptions(inv.options);
            var n := |inv.env.feeds|;
            && (o.RefusedAtStartup? <==> c.StartupFailed?)
            && (o.RefusedAtStartup? ==> o.error == c.error)
            && (o.Ran? <==> c.Configured? && n >= 1 && (n > 1 ==> inv.subposesInFile == n - 1))
            && (o.Ran? ==> ValidEnv(inv.env) && o.run == RunLoop(inv.env))
  {
    match CheckOptions(inv.options)
    case StartupFailed(e) => RefusedAtStartup(e)
    case Configured(settings) =>
      if !SubposesMatch(settings.numCameras, inv.subposesInFile) then
        RigCalibrationMismatch
      else
        Ran(RunLoop(inv.env))
  }

  /** The status `main` returns: `EXIT_FAILURE` for a refused option or an
      aborted run, an assertion failure for a rig calibration mismatch, and
      success only by falling off the end of `main` after the report. */
  function Exit(o: Outcome): (r: ExitStatus)
    ensures r == ExitSuccess <==> HasReport(o)
    ensures r == Aborted <==> o == RigCalibrationMismatch
    ensures o.RefusedAtStartup? ==> r == ExitFailure
  {
    match o
    case RefusedAtStartup(_) => ExitFailure
    case RigCalibrationMismatch => Aborted
    case Ran(run) => if run.end.Completed? then ExitSuccess else ExitFailure
  }

  /** The report is only reached when the loop ends normally; the aborts
      return straight away. */
  predicate HasReport(o: Outcome) {
    o.Ran? && o.run.end.Completed?
  }

  function FinalReport(o: Outcome): (rep: Report)
    requires HasReport(o)
  {
    Report(o.run.final.numLocalized, o.run.final.frameCounter, o.run.final.stats)
  }

  /** The process succeeds exactly when the checks pass and camera 0 runs out
      of images before any failure; a report is printed exactly then. */
  lemma ExitStatusCharacterised(inv: Invocation)
    requires WellFormed(inv)
    ensures var o := Execute(inv);
            && (Exit(o) == ExitSuccess <==> HasReport(o))
            && (Exit(o) == ExitSuccess <==>
                  && CheckOptions(inv.options).Configured?
                  && |inv.env.feeds| >= 1
                  && (|inv.env.feeds| > 1 ==> inv.subposesInFile == |inv.env.feeds| - 1)
                  && !ReadAt(inv.env.feeds[0], RunLoop(inv.env).final.frameCounter).hasImage)
  {
  }

  /** The report counts every attempted frame, localized or not: the
      accumulator holds one sample per attempted frame and summarises exactly
      their durations, and no more frames are localized than attempted. */
  lemma ReportConsistent(inv: Invocation)
    requires WellFormed(inv)
    requires HasReport(Execute(inv))
    ensures var rep := FinalReport(Execute(inv));
            && rep.localized <= rep.attempted
            && rep.localized == CountTrue(inv.env.localized[..rep.attempted])
            && SampleCount(rep.stats) == rep.attempted
            && Describes(rep.stats, inv.env.durations[..rep.attempted])
  {
    RunAccounting(inv.env);
  }

  /** A single camera needs no calibration file: whatever it holds, nothing
      is loaded and the subpose assertion passes. */
  lemma SingleCameraIgnoresCalibration(inv: Invocation)
    requires WellFormed(inv)
    requires |inv.env.feeds| == 1
    requires CheckOptions(inv.options).Configured?
    ensures Execute(inv).Ran?
  {
  }

  /** With no camera at all the subpose assertion fails (0 is compared with
      `numCameras - 1` wrapped round in `std::size_t`), so the endless loop is
      never entered. */
  lemma NoCameraAborts(inv: Invocation)
    requires WellFormed(inv)
    requires |inv.env.feeds| == 0
    requires CheckOptions(inv.options).Configured?
    ensures Execute(inv) == RigCalibrationMismatch
    ensures Exit(Execute(inv)) == Aborted
  {
  }

  /** Three frames of one camera taking 10, 20 and 30 ms, localized, failed,
      localized: 2 of 3 localized, 60 ms in all, 20 ms on average, 10 ms at
      least and 30 ms at most. */
  lemma ThreeFrameReport()
    ensures var usable := FeedRecord(true, true);
            var inv := Invocation(
              Options(ACRansac, Finite(4.0), ACRansac, Finite(4.0), 1, 1),
              0,
              Env([[usable, usable, usable]], [true, false, true], [10, 20, 30]));
            && WellFormed(inv)
            && HasReport(Execute(inv))
            && FinalReport(Execute(inv)) == Report(2, 3, Summary(3, 60, 10, 30))
            && Mean(FinalReport(Execute(inv)).stats) == 20.0
  {
    var usable := FeedRecord(true, true);
    var env := Env([[usable, usable, usable]], [true, false, true], [10, 20, 30]);
    EqualFeedsComplete(env, 3);
    RunAccounting(env);
    assert env.localized[..3] == [true, false, true];
    assert env.durations[..3] == [10, 20, 30];
  }
}
