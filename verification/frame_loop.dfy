/** The frame loop of the rig localizer (`while(haveImage)` in `main`).
    Every camera feed, the localisation engine and the clock are replaced by
    inputs: a feed is the sequence of what `readImage` reports at each
    position, the engine is the per-frame "localized" verdict, and the clock
    is the per-frame duration in milliseconds. */
module FrameLoop {
  import opened Statistics

  /** What one `readImage` call on a feed reports. */
  datatype FeedRecord = FeedRecord(hasImage: bool, hasIntrinsics: bool)

  type Feed = seq<FeedRecord>

  /** Reading a feed at a position; past its end the feed has no image. */
  function ReadAt(feed: Feed, pos: nat): (rec: FeedRecord) {
    if pos < |feed| then feed[pos] else FeedRecord(false, false)
  }

  /** A read the loop can go on with: an image with its intrinsics. */
  predicate Usable(r: FeedRecord) {
    r.hasImage && r.hasIntrinsics
  }

  /** Every camera has an image with intrinsics at position `frame`. */
  ghost predicate FrameUsable(feeds: seq<Feed>, frame: nat) {
    forall c :: 0 <= c < |feeds| ==> Usable(ReadAt(feeds[c], frame))
  }

  /** How the acquisition of one synchronised frame ended. */
  datatype Acquisition =
    | Acquired
    | EndOfStream              // camera 0 had no image
    | Desync(camera: nat)      // a later camera had no image while camera 0 had one
    | NoIntrinsics(camera: nat)

  /** The camera whose read stopped the acquisition. */
  function StoppedAt(a: Acquisition): (camera: nat)
    requires !a.Acquired?
  {
    match a
    case EndOfStream => 0
    case Desync(c) => c
    case NoIntrinsics(c) => c
  }

  datatype FrameRead = FrameRead(status: Acquisition, cursors: seq<nat>)

  /** The inner `for` over the cameras, from camera `cam` on. Each camera is
      read at its cursor and advanced right away (`goToNextFrame`), and only
      then is the read checked; the first failed check ends the frame, so the
      cameras after it are neither read nor advanced. */
  function ReadCameras(feeds: seq<Feed>, cursors: seq<nat>, cam: nat): (r: FrameRead)
    requires |cursors| == |feeds| && cam <= |feeds|
    ensures |r.cursors| == |feeds|
    ensures forall i :: 0 <= i < cam ==> r.cursors[i] == cursors[i]
    ensures r.status.Acquired? ==>
              forall i :: cam <= i < |feeds| ==>
                Usable(ReadAt(feeds[i], cursors[i])) && r.cursors[i] == cursors[i] + 1
    ensures !r.status.Acquired? ==>
              var j := StoppedAt(r.status);
              && cam <= j < |feeds|
              && (forall i :: cam <= i < j ==> Usable(ReadAt(feeds[i], cursors[i])))
              && !Usable(ReadAt(feeds[j], cursors[j]))
              && (r.status.NoIntrinsics? <==> ReadAt(feeds[j], cursors[j]).hasImage)
              && (r.status.EndOfStream? ==> j == 0)
              && (r.status.Desync? ==> j > 0)
              && (forall i :: cam <= i <= j ==> r.cursors[i] == cursors[i] + 1)
              && (forall i :: j < i < |feeds| ==> r.cursors[i] == cursors[i])
    decreases |feeds| - cam
  {
    if cam == |feeds| then
      FrameRead(Acquired, cursors)
    else
      var rec := ReadAt(feeds[cam], cursors[cam]);
      var advanced := cursors[cam := cursors[cam] + 1];
      if !rec.hasImage then
        FrameRead(if cam > 0 then Desync(cam) else EndOfStream, advanced)
      else if !rec.hasIntrinsics then
        FrameRead(NoIntrinsics(cam), advanced)
      else
        ReadCameras(feeds, advanced, cam + 1)
  }

  /** Every feed positioned at `frame`. */
  function Uniform(n: nat, frame: nat): (s: seq<nat>)
    ensures |s| == n && forall i :: 0 <= i < n ==> s[i] == frame
  {
    seq(n, _ => frame)
  }

  /** Acquisition of frame `frame`, all feeds being positioned there. */
  function ReadFrame(feeds: seq<Feed>, frame: nat): (read: FrameRead) {
    ReadCameras(feeds, Uniform(|feeds|, frame), 0)
  }

  /** One entry of an exported trajectory track: a keyframe for a localized
      frame, or a jump over a frame that could not be localized. */
  datatype Event = Keyframe(frame: nat) | Jump

  /** The loop's state: the two counters, `rigResultPerFrame` (the engine's
      verdict per attempted frame), the timing accumulator, the feeds'
      positions, and the trajectory tracks of the rig and of every camera. */
  datatype State = State(
    frameCounter: nat,
    numLocalized: nat,
    results: seq<bool>,
    stats: Accumulator,
    cursors: seq<nat>,
    rigTrack: seq<Event>,
    cameraTracks: seq<seq<Event>>)

  /** The inputs standing for the outside world: the feeds, the engine's
      verdict for each frame and the time each localisation took. */
  datatype Env = Env(feeds: seq<Feed>, localized: seq<bool>, durations: seq<nat>)

  /** At least one camera (with none the inner loop never runs and the outer
      one never ends), and an engine answer for every frame camera 0 can give. */
  predicate ValidEnv(env: Env) {
    && |env.feeds| >= 1
    && |env.localized| >= |env.feeds[0]|
    && |env.durations| >= |env.feeds[0]|
  }

  /** Between frames every feed sits at the current frame. */
  predicate Lockstep(env: Env, st: State) {
    && |env.feeds| >= 1
    && st.cursors == Uniform(|env.feeds|, st.frameCounter)
    && st.frameCounter <= |env.feeds[0]|
    && |st.cameraTracks| == |env.feeds|
  }

  function Initial(n: nat): (st: State) {
    State(0, 0, [], NoSamples, Uniform(n, 0), [], seq(n, _ => []))
  }

  /** What the exporters record for frame `frame`. */
  function EventFor(localized: seq<bool>, frame: nat): (ev: Event)
    requires frame < |localized|
  {
    if localized[frame] then Keyframe(frame) else Jump
  }

  /** The events recorded for frames `from` up to (not including) `to`. */
  function Events(localized: seq<bool>, from: nat, to: nat): (es: seq<Event>)
    requires from <= to <= |localized|
    ensures |es| == to - from
  {
    seq(to - from, i requires 0 <= i < to - from => EventFor(localized, from + i))
  }

  function CountTrue(bs: seq<bool>): (n: nat) {
    if bs == [] then 0 else (if bs[0] then 1 else 0) + CountTrue(bs[1..])
  }

  /** The bookkeeping after the engine ran on the current frame. */
  function Bookkeep(env: Env, st: State, cursors: seq<nat>): (next: State)
    requires st.frameCounter < |env.localized| && st.frameCounter < |env.durations|
    ensures var k := st.frameCounter;
            var ok := env.localized[k];
            var ev := if ok then Keyframe(k) else Jump;
            && next.frameCounter == k + 1
            && next.numLocalized == (if ok then st.numLocalized + 1 else st.numLocalized)
            && next.results == st.results + [ok]
            && next.stats == Add(st.stats, env.durations[k])
            && next.cursors == cursors
            && next.rigTrack == st.rigTrack + [ev]
            && |next.cameraTracks| == |st.cameraTracks|
            && (forall c :: 0 <= c < |st.cameraTracks| ==>
                  next.cameraTracks[c] == st.cameraTracks[c] + [ev])
  {
    var k := st.frameCounter;
    var ok := env.localized[k];
    var ev := EventFor(env.localized, k);
    State(
      k + 1,
      if ok then st.numLocalized + 1 else st.numLocalized,
      st.results + [ok],
      Add(st.stats, env.durations[k]),
      cursors,
      st.rigTrack + [ev],
      seq(|st.cameraTracks|, i requires 0 <= i < |st.cameraTracks| => st.cameraTracks[i] + [ev]))
  }

  /** How the whole run ended. */
  datatype Termination =
    | Completed
    | FeedDesync(camera: nat)
    | MissingIntrinsics(camera: nat)

  function Ending(a: Acquisition): (t: Termination)
    requires !a.Acquired?
  {
    match a
    case EndOfStream => Completed
    case Desync(c) => FeedDesync(c)
    case NoIntrinsics(c) => MissingIntrinsics(c)
  }

  datatype Run = Run(end: Termination, final: State)

  /** The loop from state `st` on. It stops at the first frame that some
      camera cannot deliver; every frame before it is processed. */
  function RunFrom(env: Env, st: State): (r: Run)
    requires ValidEnv(env) && Lockstep(env, st)
    ensures st.frameCounter <= r.final.frameCounter <= |env.feeds[0]|
    ensures forall f :: st.frameCounter <= f < r.final.frameCounter ==> FrameUsable(env.feeds, f)
    ensures var last := ReadFrame(env.feeds, r.final.frameCounter);
            && !last.status.Acquired?
            && r.end == Ending(last.status)
            && r.final.cursors == last.cursors
    decreases |env.feeds[0]| - st.frameCounter
  {
    var read := ReadCameras(env.feeds, st.cursors, 0);
    if read.status.Acquired? then
      var k := st.frameCounter;
      assert Usable(ReadAt(env.feeds[0], k));
      assert read.cursors == Uniform(|env.feeds|, k + 1);
      RunFrom(env, Bookkeep(env, st, read.cursors))
    else
      Run(Ending(read.status), st.(cursors := read.cursors))
  }

  /** The whole loop, from the first frame with every feed at its start. */
  function RunLoop(env: Env): (r: Run)
    requires ValidEnv(env)
  {
    RunFrom(env, Initial(|env.feeds|))
  }

  /** Appending the first element of a slice, then the rest of it. */
  lemma AppendSliceFront<T>(pre: seq<T>, s: seq<T>, from: nat, to: nat)
    requires from < to <= |s|
    ensures pre + [s[from]] + s[from + 1..to] == pre + s[from..to]
  {
    assert s[from..to] == [s[from]] + s[from + 1..to];
  }

  lemma CountTrueSliceFront(s: seq<bool>, from: nat, to: nat)
    requires from < to <= |s|
    ensures CountTrue(s[from..to]) == (if s[from] then 1 else 0) + CountTrue(s[from + 1..to])
  {
    assert s[from..to][1..] == s[from + 1..to];
  }

  lemma AddAllSliceFront(acc: Accumulator, s: seq<nat>, from: nat, to: nat)
    requires from < to <= |s|
    ensures AddAll(Add(acc, s[from]), s[from + 1..to]) == AddAll(acc, s[from..to])
  {
    assert s[from..to][1..] == s[from + 1..to];
  }

  /** Appending the event of the first frame, then those of the rest. */
  lemma AppendEventsFront(pre: seq<Event>, localized: seq<bool>, from: nat, to: nat)
    requires from < to <= |localized|
    ensures pre + [EventFor(localized, from)] + Events(localized, from + 1, to) == pre + Events(localized, from, to)
  {
    assert Events(localized, from, to) == [EventFor(localized, from)] + Events(localized, from + 1, to);
  }

  /** Every track got the first frame's event, then the events of the rest. */
  lemma AppendEventsFrontAll(pre: seq<seq<Event>>, mid: seq<seq<Event>>, post: seq<seq<Event>>,
                             localized: seq<bool>, from: nat, to: nat)
    requires from < to <= |localized|
    requires |mid| == |pre| && |post| == |pre|
    requires forall c :: 0 <= c < |pre| ==> mid[c] == pre[c] + [EventFor(localized, from)]
    requires forall c :: 0 <= c < |pre| ==> post[c] == mid[c] + Events(localized, from + 1, to)
    ensures forall c :: 0 <= c < |pre| ==> post[c] == pre[c] + Events(localized, from, to)
  {
    forall c | 0 <= c < |pre|
      ensures post[c] == pre[c] + Events(localized, from, to)
    {
      AppendEventsFront(pre[c], localized, from, to);
    }
  }

  /** One processed frame, then the rest of the run. */
  lemma RunFromStep(env: Env, st: State)
    requires ValidEnv(env) && Lockstep(env, st)
    requires ReadCameras(env.feeds, st.cursors, 0).status.Acquired?
    ensures st.frameCounter < |env.feeds[0]|
    ensures var next := Bookkeep(env, st, ReadCameras(env.feeds, st.cursors, 0).cursors);
            && Lockstep(env, next)
            && RunFrom(env, st) == RunFrom(env, next)
  {
  }

  /** The verdicts, the localized count and the accumulator after a run:
      every processed frame appended its verdict and its duration and was
      counted once if it was localized; what was there before is kept. */
  lemma {:induction false} RunFromResults(env: Env, st: State)
    requires ValidEnv(env) && Lockstep(env, st)
    ensures var r := RunFrom(env, st);
            var k0, k := st.frameCounter, r.final.frameCounter;
            && r.final.results == st.results + env.localized[k0..k]
            && r.final.numLocalized == st.numLocalized + CountTrue(env.localized[k0..k])
            && r.final.stats == AddAll(st.stats, env.durations[k0..k])
    decreases |env.feeds[0]| - st.frameCounter
  {
    var k0 := st.frameCounter;
    if ReadCameras(env.feeds, st.cursors, 0).status.Acquired? {
      RunFromStep(env, st);
      var next := Bookkeep(env, st, ReadCameras(env.feeds, st.cursors, 0).cursors);
      assert next.frameCounter == k0 + 1;
      RunFromResults(env, next);
      var k := RunFrom(env, next).final.frameCounter;
      AppendSliceFront(st.results, env.localized, k0, k);
      CountTrueSliceFront(env.localized, k0, k);
      AddAllSliceFront(st.stats, env.durations, k0, k);
    } else {
      assert env.localized[k0..k0] == [] && env.durations[k0..k0] == [];
    }
  }

  /** The rig track after a run: one event per processed frame, a keyframe
      at that frame's index if it was localized and a jump otherwise. */
  lemma {:induction false} RunFromRigTrack(env: Env, st: State)
    requires ValidEnv(env) && Lockstep(env, st)
    ensures var r := RunFrom(env, st);
            r.final.rigTrack == st.rigTrack + Events(env.localized, st.frameCounter, r.final.frameCounter)
    decreases |env.feeds[0]| - st.frameCounter
  {
    var k0 := st.frameCounter;
    if ReadCameras(env.feeds, st.cursors, 0).status.Acquired? {
      RunFromStep(env, st);
      var next := Bookkeep(env, st, ReadCameras(env.feeds, st.cursors, 0).cursors);
      var ev := EventFor(env.localized, k0);
      assert next.frameCounter == k0 + 1;
      assert next.rigTrack == st.rigTrack + [ev];
      RunFromRigTrack(env, next);
      var fin := RunFrom(env, next).final;
      assert fin.rigTrack == st.rigTrack + [ev] + Events(env.localized, k0 + 1, fin.frameCounter);
      AppendEventsFront(st.rigTrack, env.localized, k0, fin.frameCounter);
    }
  }

  /** The camera tracks after a run: every camera track got the same events
      as the rig track, one per processed frame. */
  lemma {:induction false} RunFromCameraTracks(env: Env, st: State)
    requires ValidEnv(env) && Lockstep(env, st)
    ensures var r := RunFrom(env, st);
            var k0, k := st.frameCounter, r.final.frameCounter;
            && |r.final.cameraTracks| == |st.cameraTracks|
            && (forall c :: 0 <= c < |st.cameraTracks| ==>
                  r.final.cameraTracks[c] == st.cameraTracks[c] + Events(env.localized, k0, k))
    decreases |env.feeds[0]| - st.frameCounter
  {
    var k0 := st.frameCounter;
    if ReadCameras(env.feeds, st.cursors, 0).status.Acquired? {
      RunFromStep(env, st);
      var next := Bookkeep(env, st, ReadCameras(env.feeds, st.cursors, 0).cursors);
      assert next.frameCounter == k0 + 1;
      assert forall c :: 0 <= c < |st.cameraTracks| ==>
        next.cameraTracks[c] == st.cameraTracks[c] + [EventFor(env.localized, k0)];
      RunFromCameraTracks(env, next);
      var fin := RunFrom(env, next).final;
      AppendEventsFrontAll(st.cameraTracks, next.cameraTracks, fin.cameraTracks, env.localized, k0, fin.frameCounter);
    }
  }
}
