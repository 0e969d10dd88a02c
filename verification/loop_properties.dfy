/** Properties of a whole run of the frame loop, from its first frame. */
module LoopProperties {
  import opened Statistics
  import opened FrameLoop

  lemma {:induction false} CountTrueBounded(bs: seq<bool>)
    ensures CountTrue(bs) <= |bs|
  {
    if bs != [] {
      CountTrueBounded(bs[1..]);
    }
  }

  /** The bookkeeping of a run: one verdict, one duration sample and one
      count per attempted frame, localized or not, and the localized count
      never exceeds the attempted count. */
  lemma RunAccounting(env: Env)
    requires ValidEnv(env)
    ensures var fin := RunLoop(env).final;
            var k := fin.frameCounter;
            && fin.results == env.localized[..k]
            && |fin.results| == k
            && fin.numLocalized == CountTrue(env.localized[..k])
            && fin.numLocalized <= k
            && fin.stats == Summarize(env.durations[..k])
            && SampleCount(fin.stats) == k
            && Describes(fin.stats, env.durations[..k])
  {
    var st := Initial(|env.feeds|);
    RunFromResults(env, st);
    var k := RunLoop(env).final.frameCounter;
    assert [] + env.localized[0..k] == env.localized[..k];
    CountTrueBounded(env.localized[..k]);
    assert env.durations[0..k] == env.durations[..k];
    SummarizeDescribes(env.durations[..k]);
  }

  /** Gap alignment of the exported trajectories: the rig track and every
      camera track hold exactly one event per attempted frame, and event i is
      a keyframe at index i exactly when frame i was localized, a jump
      otherwise. */
  lemma GapAlignment(env: Env)
    requires ValidEnv(env)
    ensures var fin := RunLoop(env).final;
            var k := fin.frameCounter;
            && |fin.rigTrack| == k
            && (forall i :: 0 <= i < k ==>
                  (fin.rigTrack[i] == Keyframe(i) <==> env.localized[i])
                  && (fin.rigTrack[i] == Jump <==> !env.localized[i]))
            && |fin.cameraTracks| == |env.feeds|
            && (forall c :: 0 <= c < |env.feeds| ==> fin.cameraTracks[c] == fin.rigTrack)
  {
    var st := Initial(|env.feeds|);
    RunFromRigTrack(env, st);
    RunFromCameraTracks(env, st);
    var fin := RunLoop(env).final;
    var k := fin.frameCounter;
    var es := Events(env.localized, 0, k);
    assert fin.rigTrack == es by {
      assert st.rigTrack + es == es;
    }
    assert forall i :: 0 <= i < k ==> es[i] == EventFor(env.localized, i);
    forall c | 0 <= c < |env.feeds|
      ensures fin.cameraTracks[c] == fin.rigTrack
    {
      assert st.cameraTracks[c] == [];
      assert st.cameraTracks[c] + es == es;
    }
  }

  /** The loop processes frames until the first frame some camera cannot
      deliver, and how that frame failed decides how the run ends: camera 0
      without an image is the normal end, whatever the other feeds still hold;
      a later camera without an image is a desync; a camera with an image but
      no intrinsics is a failure. Cameras up to the failing one were read and
      advanced, the ones after it were not touched. */
  lemma RunEndsAtFirstUnusableFrame(env: Env)
    requires ValidEnv(env)
    ensures var r := RunLoop(env);
            var k := r.final.frameCounter;
            && (forall f :: 0 <= f < k ==> FrameUsable(env.feeds, f))
            && !FrameUsable(env.feeds, k)
            && (r.end.Completed? <==> !ReadAt(env.feeds[0], k).hasImage)
            && (r.end.FeedDesync? ==>
                  && 0 < r.end.camera < |env.feeds|
                  && !ReadAt(env.feeds[r.end.camera], k).hasImage
                  && (forall c :: 0 <= c < r.end.camera ==> Usable(ReadAt(env.feeds[c], k))))
            && (r.end.MissingIntrinsics? ==>
                  && r.end.camera < |env.feeds|
                  && ReadAt(env.feeds[r.end.camera], k).hasImage
                  && !ReadAt(env.feeds[r.end.camera], k).hasIntrinsics
                  && (forall c :: 0 <= c < r.end.camera ==> Usable(ReadAt(env.feeds[c], k))))
            && (var stop := if r.end.Completed? then 0 else r.end.camera;
                && |r.final.cursors| == |env.feeds|
                && (forall c :: 0 <= c < |env.feeds| ==>
                      r.final.cursors[c] == (if c <= stop then k + 1 else k)))
  {
  }

  /** Feed 0 decides the end of the stream: when it holds K frames and every
      camera delivers each of them, the run completes after exactly K frames,
      however many frames the other feeds still hold. */
  lemma FeedZeroDecidesEnd(env: Env, frames: nat)
    requires ValidEnv(env)
    requires |env.feeds[0]| == frames
    requires forall f :: 0 <= f < frames ==> FrameUsable(env.feeds, f)
    ensures RunLoop(env).end == Completed
    ensures RunLoop(env).final.frameCounter == frames
  {
    RunEndsAtFirstUnusableFrame(env);
  }

  /** When every feed yields exactly K frames, all with intrinsics, the run
      completes with K attempted frames, K results and K duration samples. */
  lemma EqualFeedsComplete(env: Env, frames: nat)
    requires ValidEnv(env)
    requires forall c :: 0 <= c < |env.feeds| ==> |env.feeds[c]| == frames
    requires forall c, f :: 0 <= c < |env.feeds| && 0 <= f < frames ==> Usable(env.feeds[c][f])
    ensures RunLoop(env).end == Completed
    ensures RunLoop(env).final.frameCounter == frames
    ensures |RunLoop(env).final.results| == frames
    ensures SampleCount(RunLoop(env).final.stats) == frames
  {
    assert forall f :: 0 <= f < frames ==> FrameUsable(env.feeds, f) by {
      forall f | 0 <= f < frames
        ensures FrameUsable(env.feeds, f)
      {
        assert forall c :: 0 <= c < |env.feeds| ==> ReadAt(env.feeds[c], f) == env.feeds[c][f];
      }
    }
    FeedZeroDecidesEnd(env, frames);
    RunAccounting(env);
  }

  /** A desync at frame K: every frame before K was delivered, and at K
      cameras 0 to c-1 delivered while camera c > 0 had no image. The run
      aborts there with exactly K results recorded. */
  lemma DesyncAborts(env: Env, frames: nat, camera: nat)
    requires ValidEnv(env)
    requires forall f :: 0 <= f < frames ==> FrameUsable(env.feeds, f)
    requires 0 < camera < |env.feeds|
    requires forall c :: 0 <= c < camera ==> Usable(ReadAt(env.feeds[c], frames))
    requires !ReadAt(env.feeds[camera], frames).hasImage
    ensures RunLoop(env).end == FeedDesync(camera)
    ensures RunLoop(env).final.frameCounter == frames
    ensures |RunLoop(env).final.results| == frames
  {
    RunEndsAtFirstUnusableFrame(env);
    RunAccounting(env);
    var r := RunLoop(env);
    var k := r.final.frameCounter;
    assert !FrameUsable(env.feeds, frames);
    var last := ReadFrame(env.feeds, k);
    assert ReadAt(env.feeds[0], k).hasImage;
  }
}
