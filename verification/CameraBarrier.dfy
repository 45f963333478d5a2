/**
 The fleet camera barrier of uav_agent/env/fleet_uav_search_env.py: a bounded
 drain of the renderer, a cadence on the simulation clock, a watchdog, and the
 all-or-nothing publication of one batch.  Sensors and the renderer are inputs.
 */
module CameraBarrier {
  import opened Common
  import opened Arithmetic

  datatype Meta = Meta(time: real, frame: Option<nat>)

  datatype Reading = NotReady | Ready(meta: Meta)

  datatype Observation = Observation(cameraTime: real, poseTime: real, tick: nat)

  datatype Capture = Raised | Withheld | Batch(samples: map<nat, Meta>)

  datatype Cadence = Inconsistent | Backwards | NotDue | Due

  /** What the renderer and the sensors do while one batch is captured. */
  datatype Renderer = Renderer(canDrain: bool, metadata: (nat, nat) -> Reading, timeAfter: nat -> real, sample: nat -> Reading)

  const CATCHUP_STEPS: nat := 12

  predicate Near(a: real, b: real, tolerance: real) { AbsReal(a - b) <= tolerance }

  /** `_validate_same_camera_render`: times within tolerance of each other, frame ids all missing or all equal. */
  predicate SameRender(batch: map<nat, Meta>, tolerance: real) {
    && batch != map[]
    && (forall u, v | u in batch && v in batch :: batch[u].time - batch[v].time <= tolerance)
    && (forall u, v | u in batch && v in batch :: batch[u].frame == batch[v].frame)
  }

  predicate AllNear(batch: map<nat, Meta>, time: real, tolerance: real) {
    forall u | u in batch :: Near(batch[u].time, time, tolerance)
  }

  predicate Equal(times: map<nat, real>) {
    forall u, v | u in times && v in times :: times[u] == times[v]
  }

  /** All observations are of one pose barrier, each frame near it and recorded as published. */
  ghost predicate OneBatch(observations: map<nat, Observation>, lastCamera: map<nat, real>, tolerance: real) {
    && observations.Keys == lastCamera.Keys
    && (forall u | u in observations ::
          && observations[u].cameraTime == lastCamera[u]
          && Near(observations[u].cameraTime, observations[u].poseTime, tolerance))
    && (forall u, v | u in observations && v in observations ::
          observations[u].poseTime == observations[v].poseTime && observations[u].tick == observations[v].tick)
  }

  /** Evaluator frames exist only for current assignments, and show the published observation. */
  ghost predicate FramesOf(frames: map<(nat, nat), Observation>, assignments: map<nat, nat>,
                           observations: map<nat, Observation>)
  {
    forall k | k in frames ::
      k.0 in assignments && assignments[k.0] == k.1 && k.0 in observations && frames[k] == observations[k.0]
  }

  function Observed(samples: map<nat, Meta>, pose: real, tick: nat): map<nat, Observation> {
    map u | u in samples :: Observation(samples[u].time, pose, tick)
  }

  function Times(samples: map<nat, Meta>): map<nat, real> { map u | u in samples :: samples[u].time }

  function Framed(samples: map<nat, Meta>, assignments: map<nat, nat>, pose: real, tick: nat)
    : map<(nat, nat), Observation>
  {
    map u | u in samples && u in assignments :: (u, assignments[u]) := Observation(samples[u].time, pose, tick)
  }

  /** Each frame is at least `gap` later than the one published before. */
  ghost predicate Spaced(samples: map<nat, Meta>, lastCamera: map<nat, real>, gap: real) {
    forall u | u in lastCamera && u in samples :: samples[u].time >= lastCamera[u] + gap
  }

  /** A period has passed on every camera, to within the tolerance. */
  predicate IsDue(lastCamera: map<nat, real>, now: real, tolerance: real, period: real) {
    Equal(lastCamera) && forall u | u in lastCamera :: now - lastCamera[u] + tolerance >= period
  }

  /** A batch is due, and the last published frames are more than the tolerance old. */
  predicate Overdue(lastCamera: map<nat, real>, now: real, tolerance: real, period: real) {
    IsDue(lastCamera, now, tolerance, period) && forall u | u in lastCamera :: now - lastCamera[u] > tolerance
  }

  /** Due is always overdue exactly when the period is more than two tolerances. */
  lemma DueIsOverdueIff(tolerance: real, period: real)
    ensures (forall m, now | IsDue(m, now, tolerance, period) :: Overdue(m, now, tolerance, period))
            <==> period > 2.0 * tolerance
  {
    if period <= 2.0 * tolerance {
      var m := map[0 := 0.0];
      assert IsDue(m, tolerance, tolerance, period) && 0 in m;
      assert !Overdue(m, tolerance, tolerance, period);
    }
  }

  /** The watchdog runs from the first of the withheld captures, and has not expired. */
  predicate Watched(before: Option<real>, after: Option<real>, now: real, timeout: real) {
    after == (if before.None? then Some(now) else before) && now - after.value < timeout
  }

  lemma DueBatchSpaced(samples: map<nat, Meta>, lastCamera: map<nat, real>, now: real, tolerance: real, period: real)
    requires AllNear(samples, now, tolerance)
    requires forall u | u in lastCamera :: now - lastCamera[u] + tolerance >= period
    ensures Spaced(samples, lastCamera, period - 2.0 * tolerance)
  {
  }

  /** Frames near now are new to a history that is more than the tolerance old. */
  lemma OverdueIsNew(samples: map<nat, Meta>, lastCamera: map<nat, real>, now: real, tolerance: real, period: real)
    requires AllNear(samples, now, tolerance)
    ensures Overdue(lastCamera, now, tolerance, period) ==>
      forall u | u in samples && u in lastCamera :: samples[u].time != lastCamera[u]
  {
  }

  lemma BatchPublished(samples: map<nat, Meta>, assignments: map<nat, nat>, pose: real, tick: nat, tolerance: real)
    requires AllNear(samples, pose, tolerance)
    ensures OneBatch(Observed(samples, pose, tick), Times(samples), tolerance)
    ensures FramesOf(Framed(samples, assignments, pose, tick), assignments, Observed(samples, pose, tick))
    ensures forall u | u in assignments && u in samples :: (u, assignments[u]) in Framed(samples, assignments, pose, tick)
  {
  }

  lemma AllReplaced<K, V>(before: map<K, V>, pending: map<K, V>)
    requires before.Keys <= pending.Keys
    ensures before + pending == pending
  {
  }

  lemma FramesReplaced(frames: map<(nat, nat), Observation>, assignments: map<nat, nat>, observations: map<nat, Observation>,
                       samples: map<nat, Meta>, pose: real, tick: nat)
    requires FramesOf(frames, assignments, observations) && observations.Keys <= samples.Keys
    ensures frames.Keys <= Framed(samples, assignments, pose, tick).Keys
  {
    forall k | k in frames ensures k in Framed(samples, assignments, pose, tick) {
      assert k == (k.0, assignments[k.0]);
    }
  }

  /** Every sensor is ready with a frame near `now` on this attempt. */
  predicate Caught(r: Renderer, uavs: seq<nat>, attempt: nat, now: real, tolerance: real) {
    forall i | 0 <= i < |uavs| ::
      r.metadata(attempt, uavs[i]).Ready? && Near(r.metadata(attempt, uavs[i]).meta.time, now, tolerance)
  }

  ghost predicate CatchesUp(r: Renderer, uavs: seq<nat>, now: real, tolerance: real) {
    exists a: nat :: a <= CATCHUP_STEPS && Caught(r, uavs, a, now, tolerance)
  }

  /** The copied samples are what any caught attempt read, of one render, and new. */
  ghost predicate Delivers(r: Renderer, uavs: seq<nat>, lastCamera: map<nat, real>, now: real, tolerance: real) {
    && (forall a: nat, u: nat | Caught(r, uavs, a, now, tolerance) && u in uavs :: r.sample(u) == r.metadata(a, u))
    && (forall u, v | u in uavs && v in uavs && r.sample(u).Ready? && r.sample(v).Ready? ::
          r.sample(u).meta.time - r.sample(v).meta.time <= tolerance && r.sample(u).meta.frame == r.sample(v).meta.frame)
    && (forall u | u in uavs && u in lastCamera && r.sample(u).Ready? :: r.sample(u).meta.time != lastCamera[u])
  }

  lemma DeliveredBatch(r: Renderer, uavs: seq<nat>, lastCamera: map<nat, real>, batch: map<nat, Meta>, attempt: nat,
                       now: real, tolerance: real)
    requires uavs != [] && batch.Keys == Elements(uavs) && ReadAt(r, batch, attempt) && AllNear(batch, now, tolerance)
    requires Delivers(r, uavs, lastCamera, now, tolerance)
    ensures SameRender(batch, tolerance)
    ensures forall u | u in batch :: r.sample(u) == Ready(batch[u]) && (u in lastCamera ==> batch[u].time != lastCamera[u])
  {
    assert uavs[0] in batch;
    assert forall i | 0 <= i < |uavs| :: uavs[i] in batch;
    assert Caught(r, uavs, attempt, now, tolerance);
    forall u | u in batch ensures r.sample(u) == Ready(batch[u]) {
      assert r.metadata(attempt, u) == Ready(batch[u]);
    }
  }

  /** Draining freezes the simulation, and no sensor's clock runs back, ahead, or behind its publication. */
  ghost predicate WellBehaved(r: Renderer, uavs: seq<nat>, lastCamera: map<nat, real>, now: real, tolerance: real) {
    && r.canDrain && (forall a: nat :: Near(r.timeAfter(a), now, tolerance))
    && (forall a: nat, u: nat | u in uavs && r.metadata(a, u).Ready? ::
          && r.metadata(a, u).meta.time <= now + tolerance
          && (u in lastCamera ==> r.metadata(a, u).meta.time >= lastCamera[u] - tolerance))
    && (forall a: nat, b: nat, u: nat | a <= b && u in uavs && r.metadata(a, u).Ready? && r.metadata(b, u).Ready? ::
          r.metadata(a, u).meta.time <= r.metadata(b, u).meta.time)
  }

  /** The timestamps seen so far were read, and no later reading is older. */
  ghost predicate SeenBefore(r: Renderer, uavs: seq<nat>, seen: map<nat, real>, attempt: nat) {
    forall u, b: nat | u in seen && u in uavs && b >= attempt && r.metadata(b, u).Ready? ::
      seen[u] <= r.metadata(b, u).meta.time
  }

  /** What is read on one attempt. */
  predicate ReadAt(r: Renderer, batch: map<nat, Meta>, attempt: nat) {
    forall u | u in batch :: r.metadata(attempt, u) == Ready(batch[u])
  }

  function Elements(s: seq<nat>): set<nat> { set u | u in s }

  // ------------------------------------------------- what a barrier does

  /** What one pass over the sensors reads. */
  datatype Pass = Refused | Pass(complete: bool, batch: map<nat, Meta>, seen: map<nat, real>)

  /** A capture and the watchdog it leaves behind. */
  datatype Outcome = Outcome(capture: Capture, wait: Option<real>, warmup: bool)

  datatype Advanced = Advanced(state: State, ok: bool, published: bool)

  datatype State = State(uavs: seq<nat>, tolerance: real, period: real, timeout: real, lastCamera: map<nat, real>,
                         observations: map<nat, Observation>, evaluatorFrames: map<(nat, nat), Observation>,
                         assignments: map<nat, nat>, waitStarted: Option<real>, warmup: bool, poseTime: Option<real>)
  {
    ghost predicate Configured() {
      uavs != [] && tolerance > 0.0 && period > 0.0 && timeout > 0.0
    }

    /** The three caches come from one batch: every vehicle or none, each frame near its pose. */
    ghost predicate Valid() {
      && Configured()
      && (observations == map[] || observations.Keys == Elements(uavs))
      && OneBatch(observations, lastCamera, tolerance)
      && FramesOf(evaluatorFrames, assignments, observations)
    }

    /** The samples are every vehicle's own, of one new render near `now`, a period after the last. */
    ghost predicate Deliverable(samples: map<nat, Meta>, r: Renderer, now: real) {
      && samples.Keys == Elements(uavs) && (forall u | u in uavs :: r.sample(u) == Ready(samples[u]))
      && AllNear(samples, now, tolerance) && SameRender(samples, tolerance)
      && Spaced(samples, lastCamera, period - 2.0 * tolerance)
      && (forall u | u in samples && u in lastCamera :: samples[u].time != lastCamera[u])
    }

    function CadenceAt(now: real): Cadence {
      if lastCamera == map[] then Due
      else if !Equal(lastCamera) then Inconsistent
      else if exists u | u in lastCamera :: now < lastCamera[u] - tolerance then Backwards
      else if exists u | u in lastCamera :: now - lastCamera[u] + tolerance < period then NotDue
      else Due
    }

    /** A clock that is ahead, or behind what was seen before or published. */
    predicate OutOfLine(u: nat, time: real, now: real, seen: map<nat, real>) {
      || time > now + tolerance
      || (u in seen && time < seen[u] - tolerance)
      || (u in lastCamera && time < lastCamera[u] - tolerance)
    }

    function ReadFrom(r: Renderer, now: real, attempt: nat, i: nat, batch: map<nat, Meta>, seen: map<nat, real>): Pass
      requires i <= |uavs|
      decreases |uavs| - i
    {
      if i == |uavs| then Pass(true, batch, seen)
      else
        match r.metadata(attempt, uavs[i])
        case NotReady => Pass(false, batch, seen)
        case Ready(meta) =>
          if OutOfLine(uavs[i], meta.time, now, seen) then Refused
          else ReadFrom(r, now, attempt, i + 1, batch[uavs[i] := meta], seen[uavs[i] := meta.time])
    }

    /** Withheld where the watchdog is to decide. */
    function DrainedFrom(r: Renderer, now: real, attempt: nat, seen: map<nat, real>): Capture
      decreases CATCHUP_STEPS - attempt, this
    {
      match ReadFrom(r, now, attempt, 0, map[], seen)
      case Refused => Raised
      case Pass(complete, batch, seenNow) =>
        if complete && AllNear(batch, now, tolerance) then Batch(batch)
        else if attempt >= CATCHUP_STEPS || !r.canDrain then (if warmup || !complete then Withheld else Raised)
        else if !Near(r.timeAfter(attempt), now, tolerance) then Raised
        else DrainedFrom(r, now, attempt + 1, seenNow)
    }

    /** Every sample is copied before any is compared. */
    function Copied(r: Renderer, metadata: map<nat, Meta>): Capture {
      if !SameRender(metadata, tolerance) then Raised
      else if exists u | u in uavs :: r.sample(u).NotReady? then Withheld
      else if forall u | u in uavs :: u in metadata && r.sample(u).meta == metadata[u] then Batch(metadata)
      else Raised
    }

    function Settled(c: Capture, now: real): Outcome {
      if !c.Withheld? then Outcome(c, waitStarted, warmup)
      else if waitStarted.None? then Outcome(Withheld, Some(now), warmup)
      else Outcome(if now - waitStarted.value >= timeout then Raised else Withheld, waitStarted, warmup)
    }

    predicate Shown(u: nat, meta: Meta) { u in lastCamera && lastCamera[u] == meta.time }

    function Kept(samples: map<nat, Meta>, now: real): Outcome {
      if forall u | u in samples :: Shown(u, samples[u]) then Outcome(Withheld, None, warmup)
      else if exists u | u in samples :: Shown(u, samples[u]) then Settled(Withheld, now)
      else Outcome(Batch(samples), None, false)
    }

    function Captured(r: Renderer, now: real): Outcome {
      match CadenceAt(now)
      case Inconsistent => Outcome(Raised, waitStarted, warmup)
      case Backwards => Outcome(Raised, waitStarted, warmup)
      case NotDue => Outcome(Withheld, None, warmup)
      case Due => Delivered(r, DrainedFrom(r, now, 0, map[]), now)
    }

    function Delivered(r: Renderer, drained: Capture, now: real): Outcome {
      if !drained.Batch? then Settled(drained, now)
      else
        var copied := Copied(r, drained.samples);
        if copied.Batch? then Kept(copied.samples, now) else Settled(copied, now)
    }

    function Published(samples: map<nat, Meta>, pose: real, tick: nat): State {
      this.(observations := Observed(samples, pose, tick), lastCamera := Times(samples),
            evaluatorFrames := Framed(samples, assignments, pose, tick))
    }

    function Held(outcome: Outcome): State { this.(waitStarted := outcome.wait, warmup := outcome.warmup) }

    /** A failure leaves the pose and every cache as they were. */
    function Concluded(c: Capture, now: real, tick: nat, projectionRaises: bool): Advanced {
      match c
      case Raised => Advanced(this, false, false)
      case Withheld => Advanced(this.(poseTime := Some(now)), true, false)
      case Batch(samples) =>
        if projectionRaises then Advanced(this, false, false)
        else Advanced(Published(samples, now, tick).(poseTime := Some(now)), true, true)
    }

    /** The whole barrier. */
    function Advance(now: real, r: Renderer, tick: nat, projectionRaises: bool): Advanced {
      var outcome := Captured(r, now);
      Held(outcome).Concluded(outcome.capture, now, tick, projectionRaises)
    }
  }

  lemma {:induction false} ReadSound(s: State, r: Renderer, now: real, attempt: nat, i: nat, batch: map<nat, Meta>,
                                     seen: map<nat, real>)
    requires i <= |s.uavs| && batch.Keys == Elements(s.uavs[..i]) && ReadAt(r, batch, attempt)
    ensures var pass := s.ReadFrom(r, now, attempt, i, batch, seen);
      pass.Pass? ==> ReadAt(r, pass.batch, attempt) && (pass.complete ==> pass.batch.Keys == Elements(s.uavs))
    decreases |s.uavs| - i
  {
    if i == |s.uavs| {
      assert s.uavs[..i] == s.uavs;
    } else {
      var u := s.uavs[i];
      var reading := r.metadata(attempt, u);
      assert Elements(s.uavs[..i + 1]) == Elements(s.uavs[..i]) + {u};
      if reading.Ready? && !s.OutOfLine(u, reading.meta.time, now, seen) {
        ReadSound(s, r, now, attempt, i + 1, batch[u := reading.meta], seen[u := reading.meta.time]);
      }
    }
  }

  /** Well-behaved sensors are never out of line, and a pass is complete exactly when all of them are ready. */
  lemma {:induction false} ReadCatches(s: State, r: Renderer, now: real, attempt: nat, i: nat, batch: map<nat, Meta>,
                                       seen: map<nat, real>)
    requires i <= |s.uavs| && s.tolerance >= 0.0
    requires WellBehaved(r, s.uavs, s.lastCamera, now, s.tolerance) && SeenBefore(r, s.uavs, seen, attempt)
    ensures var pass := s.ReadFrom(r, now, attempt, i, batch, seen);
      && pass.Pass? && SeenBefore(r, s.uavs, pass.seen, attempt + 1)
      && (pass.complete <==> forall j | i <= j < |s.uavs| :: r.metadata(attempt, s.uavs[j]).Ready?)
    decreases |s.uavs| - i
  {
    if i < |s.uavs| {
      var u := s.uavs[i];
      var reading := r.metadata(attempt, u);
      assert u in s.uavs;
      if reading.Ready? {
        ReadCatches(s, r, now, attempt, i + 1, batch[u := reading.meta], seen[u := reading.meta.time]);
      }
    }
  }

  /** A drained batch is one reading of every sensor, all near now. */
  lemma {:induction false} DrainSound(s: State, r: Renderer, now: real, attempt: nat, seen: map<nat, real>)
    requires attempt <= CATCHUP_STEPS
    ensures var c := s.DrainedFrom(r, now, attempt, seen); c.Batch? ==>
      Drained(c, s.uavs, now, s.tolerance) && exists a: nat :: a <= CATCHUP_STEPS && ReadAt(r, c.samples, a)
    decreases CATCHUP_STEPS - attempt
  {
    ReadSound(s, r, now, attempt, 0, map[], seen);
    var pass := s.ReadFrom(r, now, attempt, 0, map[], seen);
    if pass.Pass? && attempt < CATCHUP_STEPS {
      DrainSound(s, r, now, attempt + 1, pass.seen);
    }
  }

  /** With well-behaved sensors the drain finds a batch if one of its remaining attempts has one. */
  lemma {:induction false} DrainCatches(s: State, r: Renderer, now: real, attempt: nat, seen: map<nat, real>, a: nat)
    requires s.tolerance >= 0.0 && attempt <= a <= CATCHUP_STEPS && Caught(r, s.uavs, a, now, s.tolerance)
    requires WellBehaved(r, s.uavs, s.lastCamera, now, s.tolerance) && SeenBefore(r, s.uavs, seen, attempt)
    ensures s.DrainedFrom(r, now, attempt, seen).Batch?
    decreases CATCHUP_STEPS - attempt
  {
    ReadSound(s, r, now, attempt, 0, map[], seen);
    ReadCatches(s, r, now, attempt, 0, map[], seen);
    var pass := s.ReadFrom(r, now, attempt, 0, map[], seen);
    if attempt == a {
      forall u | u in pass.batch && pass.complete ensures Near(pass.batch[u].time, now, s.tolerance) {
        assert u in s.uavs;
      }
    } else {
      DrainCatches(s, r, now, attempt + 1, pass.seen, a);
    }
  }

  /** What the drain may hand on. */
  predicate Drained(c: Capture, uavs: seq<nat>, now: real, tolerance: real) {
    c.Batch? ==> c.samples.Keys == Elements(uavs) && AllNear(c.samples, now, tolerance)
  }

  lemma DeliveredSound(s: State, r: Renderer, drained: Capture, now: real)
    requires s.Configured() && s.CadenceAt(now).Due? && Drained(drained, s.uavs, now, s.tolerance)
    ensures var o := s.Delivered(r, drained, now);
      if o.capture.Batch? then s.Deliverable(o.capture.samples, r, now) && o.wait.None? && !o.warmup
      else o.warmup == s.warmup
  {
    if drained.Batch? {
      assert s.uavs[0] in drained.samples;
      DueBatchSpaced(drained.samples, s.lastCamera, now, s.tolerance, s.period);
    }
  }

  lemma DeliveredInTime(s: State, r: Renderer, drained: Capture, now: real)
    requires s.Configured() && Drained(drained, s.uavs, now, s.tolerance)
    ensures var o := s.Delivered(r, drained, now);
      && (o.capture.Withheld? && (o.wait.Some? || Overdue(s.lastCamera, now, s.tolerance, s.period)) ==>
            Watched(s.waitStarted, o.wait, now, s.timeout))
      && (o.capture.Raised? ==> o.wait == s.waitStarted)
  {
    if drained.Batch? {
      assert s.uavs[0] in drained.samples;
      OverdueIsNew(drained.samples, s.lastCamera, now, s.tolerance, s.period);
    }
  }

  /** A delivered batch is what the sensors reported, all new, and spaced by the cadence. */
  lemma CapturedSound(s: State, r: Renderer, now: real)
    requires s.Configured()
    ensures var o := s.Captured(r, now);
      if o.capture.Batch? then s.Deliverable(o.capture.samples, r, now) && o.wait.None? && !o.warmup
      else o.warmup == s.warmup
  {
    if s.CadenceAt(now).Due? {
      DrainSound(s, r, now, 0, map[]);
      DeliveredSound(s, r, s.DrainedFrom(r, now, 0, map[]), now);
    }
  }

  /** A capture withheld while the watchdog runs, or while a batch is overdue, is inside its timeout. */
  lemma CapturedInTime(s: State, r: Renderer, now: real)
    requires s.Configured()
    ensures var o := s.Captured(r, now);
      && (o.capture.Withheld? && (o.wait.Some? || Overdue(s.lastCamera, now, s.tolerance, s.period)) ==>
            Watched(s.waitStarted, o.wait, now, s.timeout))
      && (o.capture.Raised? ==> o.wait == s.waitStarted)
  {
    if s.CadenceAt(now).Due? {
      DrainSound(s, r, now, 0, map[]);
      DeliveredInTime(s, r, s.DrainedFrom(r, now, 0, map[]), now);
    } else if s.CadenceAt(now).NotDue? {
      assert !IsDue(s.lastCamera, now, s.tolerance, s.period);
    }
  }

  lemma DrainedWhenCaught(s: State, r: Renderer, now: real) returns (metadata: map<nat, Meta>, attempt: nat)
    requires s.tolerance >= 0.0 && WellBehaved(r, s.uavs, s.lastCamera, now, s.tolerance)
    requires CatchesUp(r, s.uavs, now, s.tolerance)
    ensures s.DrainedFrom(r, now, 0, map[]) == Batch(metadata) && ReadAt(r, metadata, attempt)
    ensures metadata.Keys == Elements(s.uavs) && AllNear(metadata, now, s.tolerance)
  {
    var caught: nat :| caught <= CATCHUP_STEPS && Caught(r, s.uavs, caught, now, s.tolerance);
    DrainCatches(s, r, now, 0, map[], caught);
    DrainSound(s, r, now, 0, map[]);
    metadata := s.DrainedFrom(r, now, 0, map[]).samples;
    attempt :| attempt <= CATCHUP_STEPS && ReadAt(r, metadata, attempt);
  }

  lemma DeliveredWhenNew(s: State, r: Renderer, metadata: map<nat, Meta>, now: real)
    requires s.uavs != [] && metadata.Keys == Elements(s.uavs) && SameRender(metadata, s.tolerance)
    requires forall u | u in metadata ::
      r.sample(u) == Ready(metadata[u]) && (u in s.lastCamera ==> metadata[u].time != s.lastCamera[u])
    ensures s.Delivered(r, Batch(metadata), now).capture == Batch(metadata)
  {
    assert s.uavs[0] in metadata;
  }

  /** A due batch that every sensor delivers is captured. */
  lemma CapturedWhenDelivered(s: State, r: Renderer, now: real)
    requires s.Configured() && IsDue(s.lastCamera, now, s.tolerance, s.period)
    requires WellBehaved(r, s.uavs, s.lastCamera, now, s.tolerance) && CatchesUp(r, s.uavs, now, s.tolerance)
    requires Delivers(r, s.uavs, s.lastCamera, now, s.tolerance)
    ensures s.Captured(r, now).capture.Batch?
  {
    var metadata, attempt := DrainedWhenCaught(s, r, now);
    DeliveredBatch(r, s.uavs, s.lastCamera, metadata, attempt, now, s.tolerance);
    DeliveredWhenNew(s, r, metadata, now);
    assert s.CadenceAt(now).Due?;
  }

  /** A published batch is what the sensors reported, near the pose and in cadence. */
  lemma PublishedMeans(s: State, now: real, r: Renderer, tick: nat, projectionRaises: bool)
    requires s.Valid()
    ensures var a := s.Advance(now, r, tick, projectionRaises);
      a.published ==>
        && a.ok && a.state.observations.Keys == a.state.lastCamera.Keys == Elements(s.uavs)
        && (forall u | u in s.uavs ::
              && r.sample(u).Ready?
              && a.state.lastCamera[u] == a.state.observations[u].cameraTime == r.sample(u).meta.time)
        && (forall u | u in a.state.observations ::
              a.state.observations[u].poseTime == now && a.state.observations[u].tick == tick)
        && (forall u | u in s.lastCamera :: u in a.state.lastCamera
              && a.state.lastCamera[u] >= s.lastCamera[u] + s.period - 2.0 * s.tolerance)
  {
    CapturedSound(s, r, now);
    ConcludedMeans(s, r, s.Captured(r, now), now, tick, projectionRaises);
  }

  lemma ConcludedMeans(s: State, r: Renderer, o: Outcome, now: real, tick: nat, projectionRaises: bool)
    requires s.Valid() && (o.capture.Batch? ==> s.Deliverable(o.capture.samples, r, now))
    ensures var a := s.Held(o).Concluded(o.capture, now, tick, projectionRaises);
      a.published ==>
        && a.ok && a.state.observations.Keys == a.state.lastCamera.Keys == Elements(s.uavs)
        && (forall u | u in s.uavs ::
              && r.sample(u).Ready?
              && a.state.lastCamera[u] == a.state.observations[u].cameraTime == r.sample(u).meta.time)
        && (forall u | u in a.state.observations ::
              a.state.observations[u].poseTime == now && a.state.observations[u].tick == tick)
        && (forall u | u in s.lastCamera :: u in a.state.lastCamera
              && a.state.lastCamera[u] >= s.lastCamera[u] + s.period - 2.0 * s.tolerance)
  {
    var a := s.Held(o).Concluded(o.capture, now, tick, projectionRaises);
    if a.published {
      assert forall u | u in s.uavs :: u in o.capture.samples;
      assert forall u | u in s.lastCamera :: u in s.observations && u in o.capture.samples;
    }
  }

  /** A batch that can be delivered is published. */
  lemma PublishedWhenDelivered(s: State, now: real, r: Renderer, tick: nat)
    requires s.Valid() && IsDue(s.lastCamera, now, s.tolerance, s.period)
    requires WellBehaved(r, s.uavs, s.lastCamera, now, s.tolerance) && CatchesUp(r, s.uavs, now, s.tolerance)
    requires Delivers(r, s.uavs, s.lastCamera, now, s.tolerance)
    ensures s.Advance(now, r, tick, false).published
  {
    CapturedWhenDelivered(s, r, now);
  }

  /** Otherwise every cache is as it was, the pose moves only past a withheld capture, and the watchdog is minded. */
  lemma NotPublishedMeans(s: State, now: real, r: Renderer, tick: nat, projectionRaises: bool)
    requires s.Valid()
    ensures var a := s.Advance(now, r, tick, projectionRaises);
      && a.state.poseTime == (if a.ok then Some(now) else s.poseTime)
      && (!a.published ==> a.state == s.(poseTime := a.state.poseTime, waitStarted := a.state.waitStarted,
                                         warmup := a.state.warmup))
      && (s.lastCamera != map[] && !Equal(s.lastCamera) ==> !a.ok)
      && (a.ok && !a.published && (a.state.waitStarted.Some? || Overdue(s.lastCamera, now, s.tolerance, s.period)) ==>
            Watched(s.waitStarted, a.state.waitStarted, now, s.timeout))
      && (a.state.waitStarted.None? || a.state.waitStarted == s.waitStarted || a.state.waitStarted == Some(now))
  {
    CapturedSound(s, r, now);
    CapturedInTime(s, r, now);
  }

  class FleetCameras {
    const uavs: seq<nat>
    const targets: set<nat>
    const exclusive: bool
    const tolerance: real
    const period: real
    const timeout: real
    var lastCamera: map<nat, real>
    var observations: map<nat, Observation>
    var evaluatorFrames: map<(nat, nat), Observation>
    var assignments: map<nat, nat>
    var waitStarted: Option<real>
    var warmup: bool
    var poseTime: Option<real>

    function Now(): State
      reads this
    {
      State(uavs, tolerance, period, timeout, lastCamera, observations, evaluatorFrames, assignments, waitStarted, warmup,
            poseTime)
    }

    ghost predicate Valid()
      reads this
    {
      Now().Valid()
    }

    constructor (uavs: seq<nat>, targets: set<nat>, exclusive: bool, tolerance: real, period: real, timeout: real)
      requires uavs != [] && tolerance > 0.0 && period > 0.0 && timeout > 0.0
      ensures Valid() && this.uavs == uavs && this.tolerance == tolerance && this.period == period
      ensures lastCamera == map[] && assignments == map[] && this.timeout == timeout
    {
      this.uavs, this.targets, this.exclusive := uavs, targets, exclusive;
      this.tolerance, this.period, this.timeout := tolerance, period, timeout;
      lastCamera, observations, evaluatorFrames, assignments := map[], map[], map[], map[];
      waitStarted, warmup, poseTime := None, true, None;
    }

    // -------------------------------------------------------- assignments

    /** `prepare_assignment_update`: None where the source raises. */
    method PrepareAssignments(wanted: map<nat, nat>) returns (r: Option<map<nat, nat>>)
      ensures r.Some? <==>
        && wanted.Keys <= Elements(uavs) && (forall u | u in wanted :: wanted[u] in targets)
        && (exclusive ==> forall u, v | u in wanted && v in wanted && u != v :: wanted[u] != wanted[v])
      ensures r.Some? ==> r.value == wanted
    {
      if !(wanted.Keys <= Elements(uavs)) || exists u | u in wanted :: wanted[u] !in targets {
        return None;
      }
      if exclusive && exists u, v | u in wanted && v in wanted && u != v :: wanted[u] == wanted[v] {
        return None;
      }
      return Some(wanted);
    }

    method CommitAssignments(prepared: map<nat, nat>)
      requires Valid()
      modifies `assignments, `evaluatorFrames
      ensures Valid() && Now() == old(Now()).(assignments := prepared, evaluatorFrames := map[])
    {
      assignments, evaluatorFrames := prepared, map[];
    }

    // ------------------------------------------------------------ cadence

    /** Whether a batch is due, judged on the last published timestamps. */
    method CheckCadence(now: real) returns (c: Cadence)
      ensures c == Now().CadenceAt(now)
      ensures c.Inconsistent? <==> lastCamera != map[] && !Equal(lastCamera)
      ensures c.Backwards? ==> lastCamera != map[] && forall u | u in lastCamera :: now < lastCamera[u] - tolerance
      ensures c.NotDue? ==> lastCamera != map[] && forall u | u in lastCamera :: now - lastCamera[u] + tolerance < period
      ensures c.Due? ==> forall u | u in lastCamera ::
        now >= lastCamera[u] - tolerance && now - lastCamera[u] + tolerance >= period
    {
      if lastCamera == map[] {
        return Due;
      }
      if !Equal(lastCamera) {
        return Inconsistent;
      }
      var u :| u in lastCamera;
      if now < lastCamera[u] - tolerance {
        return Backwards;
      }
      return if now - lastCamera[u] + tolerance < period then NotDue else Due;
    }

    /** `_withhold_camera_batch`: the first withheld capture starts the watchdog. */
    method Withhold(now: real) returns (c: Capture)
      requires timeout > 0.0
      modifies `waitStarted
      ensures c == Raised || c == Withheld
      ensures Outcome(c, waitStarted, warmup) == old(Now()).Settled(Withheld, now)
      ensures waitStarted == if old(waitStarted).None? then Some(now) else old(waitStarted)
      ensures c == Raised <==> old(waitStarted).Some? && now - old(waitStarted).value >= timeout
    {
      if waitStarted.None? {
        waitStarted := Some(now);
        return Withheld;
      }
      return if now - waitStarted.value >= timeout then Raised else Withheld;
    }

    // -------------------------------------------------------------- capture

    /** One pass over the sensors; None where the source raises. */
    method ReadMetadata(now: real, attempt: nat, r: Renderer, previous: map<nat, real>)
      returns (ok: bool, complete: bool, batch: map<nat, Meta>, seen: map<nat, real>)
      ensures (if ok then Pass(complete, batch, seen) else Refused) == Now().ReadFrom(r, now, attempt, 0, map[], previous)
    {
      ok, complete, batch, seen := true, true, map[], previous;
      for i := 0 to |uavs|
        invariant ok && complete
        invariant Now().ReadFrom(r, now, attempt, 0, map[], previous) == Now().ReadFrom(r, now, attempt, i, batch, seen)
      {
        var uav := uavs[i];
        var reading := r.metadata(attempt, uav);
        if reading.NotReady? {
          complete := false;
          return;
        }
        var time := reading.meta.time;
        if Now().OutOfLine(uav, time, now, seen) {
          ok := false;
          return;
        }
        seen, batch := seen[uav := time], batch[uav := reading.meta];
      }
    }

    /** The bounded drain: a batch near `now`, or the reason there is none. */
    method Drain(now: real, r: Renderer) returns (c: Capture)
      requires timeout > 0.0
      modifies `waitStarted
      ensures Outcome(c, waitStarted, warmup) == old(Now()).Settled(old(Now()).DrainedFrom(r, now, 0, map[]), now)
    {
      var seen: map<nat, real> := map[];
      for attempt := 0 to CATCHUP_STEPS + 1
        invariant waitStarted == old(waitStarted)
        invariant attempt <= CATCHUP_STEPS
        invariant Now().DrainedFrom(r, now, 0, map[]) == Now().DrainedFrom(r, now, attempt, seen)
      {
        var ok, complete, batch;
        ok, complete, batch, seen := ReadMetadata(now, attempt, r, seen);
        if !ok {
          return Raised;
        }
        if complete && AllNear(batch, now, tolerance) {
          return Batch(batch);
        }
        if attempt >= CATCHUP_STEPS || !r.canDrain {
          if warmup || !complete {
            c := Withhold(now);
            return;
          }
          return Raised;
        }
        if !Near(r.timeAfter(attempt), now, tolerance) {
          return Raised;
        }
      }
      return Raised;
    }

    /** Copy the samples; they must still be exactly the metadata that was accepted. */
    method CopySamples(now: real, r: Renderer, metadata: map<nat, Meta>) returns (c: Capture)
      requires timeout > 0.0 && metadata.Keys == Elements(uavs)
      modifies `waitStarted
      ensures Outcome(c, waitStarted, warmup) == old(Now()).Settled(Now().Copied(r, metadata), now)
      ensures c.Batch? <==> SameRender(metadata, tolerance) && forall u | u in uavs :: r.sample(u) == Ready(metadata[u])
      ensures c.Batch? ==> c.samples == metadata
    {
      if !SameRender(metadata, tolerance) {
        return Raised;
      }
      var samples: map<nat, Meta> := map[];
      for i := 0 to |uavs|
        invariant waitStarted == old(waitStarted) && samples.Keys == Elements(uavs[..i])
        invariant forall u | u in samples :: r.sample(u) == Ready(samples[u])
      {
        assert Elements(uavs[..i + 1]) == Elements(uavs[..i]) + {uavs[i]};
        var reading := r.sample(uavs[i]);
        if reading.NotReady? {
          c := Withhold(now);
          return;
        }
        samples := samples[uavs[i] := reading.meta];
      }
      assert uavs[..|uavs|] == uavs && forall u | u in uavs :: u in samples;
      return if samples == metadata then Batch(samples) else Raised;
    }

    /**
     `_capture_camera_batch`.  A batch covers every vehicle, is one render near
     `now`, entirely new, and due; a capture that is due but withheld is within
     the watchdog's timeout.
     */
    method CaptureBatch(now: real, r: Renderer) returns (c: Capture)
      requires Valid()
      modifies `waitStarted, `warmup
      ensures Outcome(c, waitStarted, warmup) == old(Now()).Captured(r, now)
      ensures c.Batch? ==> Now().Deliverable(c.samples, r, now) && waitStarted.None? && !warmup
      ensures lastCamera != map[] && !Equal(lastCamera) ==> c.Raised?
      ensures IsDue(lastCamera, now, tolerance, period) && WellBehaved(r, uavs, lastCamera, now, tolerance)
              && CatchesUp(r, uavs, now, tolerance) && Delivers(r, uavs, lastCamera, now, tolerance)
              ==> c.Batch?
      ensures c.Withheld? && (waitStarted.Some? || Overdue(lastCamera, now, tolerance, period)) ==>
        Watched(old(waitStarted), waitStarted, now, timeout)
      ensures c.Raised? ==> waitStarted == old(waitStarted)
      ensures !c.Batch? ==> warmup == old(warmup)
    {
      ghost var s := Now();
      c := CaptureNow(now, r);
      CapturedSound(s, r, now);
      CapturedInTime(s, r, now);
      if IsDue(lastCamera, now, tolerance, period) && WellBehaved(r, uavs, lastCamera, now, tolerance)
         && CatchesUp(r, uavs, now, tolerance) && Delivers(r, uavs, lastCamera, now, tolerance) {
        CapturedWhenDelivered(s, r, now);
      }
    }

    /** The steps of a capture. */
    method CaptureNow(now: real, r: Renderer) returns (c: Capture)
      requires Valid()
      modifies `waitStarted, `warmup
      ensures Outcome(c, waitStarted, warmup) == old(Now()).Captured(r, now)
    {
      var cadence := CheckCadence(now);
      if cadence.Inconsistent? || cadence.Backwards? {
        return Raised;
      }
      if cadence.NotDue? {
        waitStarted := None;
        return Withheld;
      }
      c := Drain(now, r);
      if c.Batch? {
        DrainSound(old(Now()), r, now, 0, map[]);
        c := Deliver(now, r, c.samples);
      }
    }

    /** What the drain accepted is copied, and delivered if it is new. */
    method Deliver(now: real, r: Renderer, metadata: map<nat, Meta>) returns (c: Capture)
      requires timeout > 0.0 && metadata.Keys == Elements(uavs)
      modifies `waitStarted, `warmup
      ensures Outcome(c, waitStarted, warmup) == old(Now()).Delivered(r, Batch(metadata), now)
    {
      c := CopySamples(now, r, metadata);
      if c.Batch? {
        c := KeepIfNew(now, c.samples);
      }
    }

    /** A batch is delivered only if all of it is new; a partly new one is withheld. */
    method KeepIfNew(now: real, samples: map<nat, Meta>) returns (c: Capture)
      requires timeout > 0.0
      modifies `waitStarted, `warmup
      ensures Outcome(c, waitStarted, warmup) == old(Now()).Kept(samples, now)
      ensures c.Batch? <==> samples != map[] && forall u | u in samples && u in lastCamera :: samples[u].time != lastCamera[u]
      ensures c.Batch? ==> c.samples == samples && waitStarted.None? && !warmup
      ensures !c.Batch? ==> warmup == old(warmup)
      ensures c == Withheld ==>
        if forall u | u in samples :: u in lastCamera && lastCamera[u] == samples[u].time then waitStarted.None?
        else Watched(old(waitStarted), waitStarted, now, timeout)
      ensures c == Raised ==> waitStarted == old(waitStarted)
    {
      if forall u | u in samples :: Now().Shown(u, samples[u]) {
        waitStarted := None;
        return Withheld;
      }
      if exists u | u in samples :: Now().Shown(u, samples[u]) {
        c := Withhold(now);
        return;
      }
      waitStarted, warmup := None, false;
      return Batch(samples);
    }

    // ---------------------------------------------------------- publication

    /** `_publish_observation_batch`: every cache is updated for every vehicle, or none is touched. */
    method Publish(samples: map<nat, Meta>, pose: real, tick: nat, projectionRaises: bool) returns (ok: bool)
      requires Valid() && samples != map[]
      modifies `observations, `evaluatorFrames, `lastCamera
      ensures Valid()
      ensures ok <==> samples.Keys == Elements(uavs) && AllNear(samples, pose, tolerance) && !projectionRaises
      ensures !ok ==> observations == old(observations) && evaluatorFrames == old(evaluatorFrames)
                      && lastCamera == old(lastCamera)
      ensures Now() == if ok then old(Now()).Published(samples, pose, tick) else old(Now())
      ensures ok ==>
        && (forall u | u in assignments && u in samples ::
              (u, assignments[u]) in evaluatorFrames && evaluatorFrames[(u, assignments[u])] == observations[u])
    {
      if samples.Keys != Elements(uavs) || !AllNear(samples, pose, tolerance) || projectionRaises {
        return false;
      }
      FramesReplaced(evaluatorFrames, assignments, observations, samples, pose, tick);
      AllReplaced(observations, Observed(samples, pose, tick));
      AllReplaced(lastCamera, Times(samples));
      AllReplaced(evaluatorFrames, Framed(samples, assignments, pose, tick));
      BatchPublished(samples, assignments, pose, tick, tolerance);
      observations := observations + Observed(samples, pose, tick);
      evaluatorFrames := evaluatorFrames + Framed(samples, assignments, pose, tick);
      lastCamera := lastCamera + Times(samples);
      return true;
    }

    /** `_advance_snapshot_barrier`: the pose barrier appears only after its whole camera batch. */
    method AdvanceBarrier(now: real, r: Renderer, tick: nat, projectionRaises: bool) returns (ok: bool, published: bool)
      requires Valid()
      modifies `observations, `evaluatorFrames, `lastCamera, `waitStarted, `warmup, `poseTime
      ensures Valid()
      ensures Advanced(Now(), ok, published) == old(Now()).Advance(now, r, tick, projectionRaises)
      ensures poseTime == if ok then Some(now) else old(poseTime)
      ensures published ==> ok && forall u | u in uavs ::
        && r.sample(u).Ready? && u in observations && u in lastCamera
        && lastCamera[u] == observations[u].cameraTime == r.sample(u).meta.time
      ensures IsDue(old(lastCamera), now, tolerance, period) && WellBehaved(r, uavs, old(lastCamera), now, tolerance)
              && CatchesUp(r, uavs, now, tolerance) && Delivers(r, uavs, old(lastCamera), now, tolerance)
              && !projectionRaises
              ==> published
      ensures !published ==> observations == old(observations) && evaluatorFrames == old(evaluatorFrames)
                             && lastCamera == old(lastCamera)
      ensures published ==>
        && observations.Keys == Elements(uavs)
        && (forall u | u in observations :: observations[u].poseTime == now && observations[u].tick == tick)
        && (forall u | u in old(lastCamera) :: lastCamera[u] >= old(lastCamera)[u] + period - 2.0 * tolerance)
      ensures old(lastCamera) != map[] && !Equal(old(lastCamera)) ==> !ok
      ensures ok && !published && (waitStarted.Some? || Overdue(old(lastCamera), now, tolerance, period)) ==>
        Watched(old(waitStarted), waitStarted, now, timeout)
      ensures waitStarted.None? || waitStarted == old(waitStarted) || waitStarted == Some(now)
    {
      PublishedMeans(Now(), now, r, tick, projectionRaises);
      if IsDue(lastCamera, now, tolerance, period) && WellBehaved(r, uavs, lastCamera, now, tolerance)
         && CatchesUp(r, uavs, now, tolerance) && Delivers(r, uavs, lastCamera, now, tolerance) {
        PublishedWhenDelivered(Now(), now, r, tick);
      }
      NotPublishedMeans(Now(), now, r, tick, projectionRaises);
      ok, published := AdvanceNow(now, r, tick, projectionRaises);
    }

    /** The steps of a barrier. */
    method AdvanceNow(now: real, r: Renderer, tick: nat, projectionRaises: bool) returns (ok: bool, published: bool)
      requires Valid()
      modifies `observations, `evaluatorFrames, `lastCamera, `waitStarted, `warmup, `poseTime
      ensures Valid() && Advanced(Now(), ok, published) == old(Now()).Advance(now, r, tick, projectionRaises)
    {
      var c := CaptureBatch(now, r);
      ok, published := Conclude(c, now, tick, projectionRaises);
    }

    /** The pose appears last, and not at all if the batch fails. */
    method Conclude(c: Capture, now: real, tick: nat, projectionRaises: bool) returns (ok: bool, published: bool)
      requires Valid() && (c.Batch? ==> Drained(c, uavs, now, tolerance))
      modifies `observations, `evaluatorFrames, `lastCamera, `poseTime
      ensures Valid() && Advanced(Now(), ok, published) == old(Now()).Concluded(c, now, tick, projectionRaises)
    {
      published := false;
      if c.Raised? {
        return false, false;
      }
      if c.Batch? {
        assert uavs[0] in c.samples;
        ok := Publish(c.samples, now, tick, projectionRaises);
        if !ok {
          return;
        }
        published := true;
      }
      poseTime := Some(now);
      return true, published;
    }

    /** `_invalidate_observation_caches`. */
    method InvalidateCaches()
      requires Valid()
      modifies `observations, `evaluatorFrames, `lastCamera, `waitStarted, `warmup
      ensures Valid()
      ensures Now() == old(Now()).(observations := map[], evaluatorFrames := map[], lastCamera := map[], waitStarted := None,
                                   warmup := true)
    {
      observations, evaluatorFrames, lastCamera, waitStarted, warmup := map[], map[], map[], None, true;
    }
  }

  // ------------------------------------------------------------ whole runs

  datatype Barrier = Barrier(now: real, renderer: Renderer, tick: nat, projectionRaises: bool)

  /** One barrier of a run, with the camera history before and after it. */
  datatype Step = Step(ok: bool, published: bool, before: map<nat, real>, after: map<nat, real>)

  predicate ClockForward(barriers: seq<Barrier>) {
    forall i, j | 0 <= i < j < |barriers| :: barriers[i].now <= barriers[j].now
  }

  /** The history changes only by a publication, and then by at least `gap` on every vehicle. */
  predicate Spacing(s: Step, uavs: seq<nat>, gap: real) {
    if s.published then
      && s.ok && s.after.Keys == Elements(uavs)
      && forall u | u in s.before :: u in s.after && s.after[u] >= s.before[u] + gap
    else s.after == s.before
  }

  /** The camera history a run ends with. */
  function History(steps: seq<Step>, start: map<nat, real>): map<nat, real> {
    if |steps| == 0 then start else steps[|steps| - 1].after
  }

  predicate Chained(steps: seq<Step>, start: map<nat, real>, uavs: seq<nat>, gap: real) {
    |steps| == 0 ||
    var rest, last := steps[..|steps| - 1], steps[|steps| - 1];
    Chained(rest, start, uavs, gap) && last.before == History(rest, start) && Spacing(last, uavs, gap)
  }

  /** The barrier passed without the overdue batch. */
  predicate Stalls(b: Barrier, s: Step, tolerance: real, period: real) {
    s.ok && !s.published && Overdue(s.before, b.now, tolerance, period)
  }

  predicate Stalled(barriers: seq<Barrier>, steps: seq<Step>, i: nat, j: nat, tolerance: real, period: real)
    requires i <= j < |steps| <= |barriers|
  {
    forall k {:trigger steps[k]} | i <= k <= j :: Stalls(barriers[k], steps[k], tolerance, period)
  }

  /** Barriers that passed while a batch was overdue span less than the timeout. */
  ghost predicate WatchdogKept(barriers: seq<Barrier>, steps: seq<Step>, tolerance: real, period: real, timeout: real)
    requires |steps| <= |barriers|
  {
    forall i: nat, j: nat | i <= j < |steps| && Stalled(barriers, steps, i, j, tolerance, period) ::
      barriers[j].now - barriers[i].now < timeout
  }

  /** Where the stall that still lasts began, or the next barrier. */
  function StallStart(barriers: seq<Barrier>, steps: seq<Step>, tolerance: real, period: real): (start: nat)
    requires |steps| <= |barriers|
    ensures start <= |steps|
  {
    if |steps| == 0 then 0
    else
      var last := |steps| - 1;
      if Stalls(barriers[last], steps[last], tolerance, period) then StallStart(barriers, steps[..last], tolerance, period)
      else |steps|
  }

  /** Every stall so far has been shorter than the timeout. */
  predicate Minded(barriers: seq<Barrier>, steps: seq<Step>, tolerance: real, period: real, timeout: real)
    requires |steps| <= |barriers|
  {
    |steps| == 0 ||
    (&& Minded(barriers, steps[..|steps| - 1], tolerance, period, timeout)
     && var start := StallStart(barriers, steps, tolerance, period);
        start < |steps| ==> barriers[|steps| - 1].now - barriers[start].now < timeout)
  }

  /** A watchdog running after these steps started no later than any stall that still lasts. */
  predicate WatchdogCovers(barriers: seq<Barrier>, steps: seq<Step>, wait: Option<real>, tolerance: real, period: real)
    requires |steps| <= |barriers|
  {
    var start := StallStart(barriers, steps, tolerance, period);
    && (wait.Some? ==> forall k | |steps| <= k < |barriers| :: wait.value <= barriers[k].now)
    && (start < |steps| ==> wait.Some? && wait.value <= barriers[start].now)
  }

  lemma WatchdogStep(barriers: seq<Barrier>, steps: seq<Step>, s: Step, before: Option<real>, after: Option<real>,
                     tolerance: real, period: real, timeout: real)
    requires ClockForward(barriers) && |steps| < |barriers|
    requires Minded(barriers, steps, tolerance, period, timeout) && WatchdogCovers(barriers, steps, before, tolerance, period)
    requires Stalls(barriers[|steps|], s, tolerance, period) ==> Watched(before, after, barriers[|steps|].now, timeout)
    requires after.None? || after == before || after == Some(barriers[|steps|].now)
    ensures Minded(barriers, steps + [s], tolerance, period, timeout)
    ensures WatchdogCovers(barriers, steps + [s], after, tolerance, period)
  {
    assert (steps + [s])[..|steps|] == steps;
  }

  lemma {:induction false} StallStartsBefore(barriers: seq<Barrier>, steps: seq<Step>, i: nat, tolerance: real, period: real)
    requires i < |steps| <= |barriers| && Stalled(barriers, steps, i, |steps| - 1, tolerance, period)
    ensures StallStart(barriers, steps, tolerance, period) <= i
  {
    if i < |steps| - 1 {
      StallStartsBefore(barriers, steps[..|steps| - 1], i, tolerance, period);
    }
  }

  /** However a stall is cut out of the run, it is shorter than the timeout. */
  lemma {:induction false} MindedMeans(barriers: seq<Barrier>, steps: seq<Step>, tolerance: real, period: real, timeout: real)
    requires ClockForward(barriers) && |steps| <= |barriers| && Minded(barriers, steps, tolerance, period, timeout)
    ensures WatchdogKept(barriers, steps, tolerance, period, timeout)
  {
    if |steps| > 0 {
      var last := |steps| - 1;
      MindedMeans(barriers, steps[..last], tolerance, period, timeout);
      forall i: nat, j: nat | i <= j < |steps| && Stalled(barriers, steps, i, j, tolerance, period)
        ensures barriers[j].now - barriers[i].now < timeout
      {
        if j < last {
          assert Stalled(barriers, steps[..last], i, j, tolerance, period);
        } else {
          StallStartsBefore(barriers, steps, i, tolerance, period);
          var start := StallStart(barriers, steps, tolerance, period);
          assert start == i || barriers[start].now <= barriers[i].now;
        }
      }
    }
  }

  lemma ChainedLonger(steps: seq<Step>, s: Step, start: map<nat, real>, uavs: seq<nat>, gap: real)
    requires Chained(steps, start, uavs, gap) && s.before == History(steps, start) && Spacing(s, uavs, gap)
    ensures Chained(steps + [s], start, uavs, gap) && History(steps + [s], start) == s.after
  {
    assert (steps + [s])[..|steps|] == steps;
  }

  /** What a published batch holds is what the sensors reported, and a batch that can be delivered is published. */
  ghost predicate Truthful(s: Step, b: Barrier, uavs: seq<nat>, tolerance: real, period: real) {
    && (s.published ==>
          forall u | u in uavs :: b.renderer.sample(u).Ready? && u in s.after && s.after[u] == b.renderer.sample(u).meta.time)
    && (IsDue(s.before, b.now, tolerance, period) && WellBehaved(b.renderer, uavs, s.before, b.now, tolerance)
        && CatchesUp(b.renderer, uavs, b.now, tolerance) && Delivers(b.renderer, uavs, s.before, b.now, tolerance)
        && !b.projectionRaises
        ==> s.published)
  }

  function StepOf(s: State, b: Barrier): Step {
    var advanced := s.Advance(b.now, b.renderer, b.tick, b.projectionRaises);
    Step(advanced.ok, advanced.published, s.lastCamera, advanced.state.lastCamera)
  }

  /** What the first n barriers leave. */
  function Through(s: State, barriers: seq<Barrier>, n: nat): State
    requires n <= |barriers|
  {
    if n == 0 then s
    else
      var b := barriers[n - 1];
      Through(s, barriers, n - 1).Advance(b.now, b.renderer, b.tick, b.projectionRaises).state
  }

  /** Each step is what its barrier does to the state that the ones before it leave. */
  predicate Played(start: State, barriers: seq<Barrier>, steps: seq<Step>)
    requires |steps| <= |barriers|
  {
    |steps| == 0 ||
    var n := |steps| - 1;
    Played(start, barriers, steps[..n]) && steps[n] == StepOf(Through(start, barriers, n), barriers[n])
  }

  ghost predicate AllTruthful(start: State, barriers: seq<Barrier>, steps: seq<Step>)
    requires |steps| <= |barriers|
  {
    forall k {:trigger steps[k]} | 0 <= k < |steps| ::
      Truthful(steps[k], barriers[k], start.uavs, start.tolerance, start.period)
  }

  /** The steps keep the cadence and the watchdog, and end with this camera history and this watchdog. */
  ghost predicate InTime(start: State, barriers: seq<Barrier>, steps: seq<Step>, history: map<nat, real>, wait: Option<real>)
    requires |steps| <= |barriers|
  {
    && history == History(steps, start.lastCamera)
    && Chained(steps, start.lastCamera, start.uavs, start.period - 2.0 * start.tolerance)
    && Minded(barriers, steps, start.tolerance, start.period, start.timeout)
    && WatchdogCovers(barriers, steps, wait, start.tolerance, start.period)
  }

  ghost predicate ValidSince(start: State, s: State) {
    s.Valid() && s.uavs == start.uavs && s.tolerance == start.tolerance && s.period == start.period && s.timeout == start.timeout
  }

  /** One barrier of a run. */
  method TakeBarrier(c: FleetCameras, b: Barrier) returns (step: Step)
    requires c.Valid()
    modifies c
    ensures c.Valid() && c.Now() == old(c.Now()).Advance(b.now, b.renderer, b.tick, b.projectionRaises).state
    ensures step == StepOf(old(c.Now()), b)
  {
    var before := c.lastCamera;
    var ok, published := c.AdvanceBarrier(b.now, b.renderer, b.tick, b.projectionRaises);
    step := Step(ok, published, before, c.lastCamera);
  }

  /** One barrier leaves the caches of one batch. */
  lemma StepValid(s: State, b: Barrier)
    requires s.Valid()
    ensures ValidSince(s, s.Advance(b.now, b.renderer, b.tick, b.projectionRaises).state)
  {
    CapturedSound(s, b.renderer, b.now);
    ConcludedValid(s, s.Captured(b.renderer, b.now), b.now, b.tick, b.projectionRaises);
  }

  lemma ConcludedValid(s: State, o: Outcome, now: real, tick: nat, projectionRaises: bool)
    requires s.Valid() && Drained(o.capture, s.uavs, now, s.tolerance)
    ensures ValidSince(s, s.Held(o).Concluded(o.capture, now, tick, projectionRaises).state)
  {
    if o.capture.Batch? {
      BatchPublished(o.capture.samples, s.assignments, now, tick, s.tolerance);
    }
  }

  lemma StepTruthful(s: State, b: Barrier)
    requires s.Valid()
    ensures Truthful(StepOf(s, b), b, s.uavs, s.tolerance, s.period)
  {
    PublishedMeans(s, b.now, b.renderer, b.tick, b.projectionRaises);
    if IsDue(s.lastCamera, b.now, s.tolerance, s.period) && WellBehaved(b.renderer, s.uavs, s.lastCamera, b.now, s.tolerance)
       && CatchesUp(b.renderer, s.uavs, b.now, s.tolerance)
       && Delivers(b.renderer, s.uavs, s.lastCamera, b.now, s.tolerance) {
      PublishedWhenDelivered(s, b.now, b.renderer, b.tick);
    }
  }

  /** One barrier publishes in cadence and minds the watchdog. */
  lemma StepInTime(s: State, b: Barrier)
    requires s.Valid()
    ensures var step := StepOf(s, b);
      var after := s.Advance(b.now, b.renderer, b.tick, b.projectionRaises).state.waitStarted;
      && Spacing(step, s.uavs, s.period - 2.0 * s.tolerance)
      && (Stalls(b, step, s.tolerance, s.period) ==>
            Watched(s.waitStarted, after, b.now, s.timeout))
      && (after.None? || after == s.waitStarted || after == Some(b.now))
  {
    PublishedMeans(s, b.now, b.renderer, b.tick, b.projectionRaises);
    NotPublishedMeans(s, b.now, b.renderer, b.tick, b.projectionRaises);
  }

  lemma PlayedLonger(start: State, barriers: seq<Barrier>, steps: seq<Step>, step: Step)
    requires |steps| < |barriers| && Played(start, barriers, steps)
    requires step == StepOf(Through(start, barriers, |steps|), barriers[|steps|])
    ensures Played(start, barriers, steps + [step])
  {
    assert (steps + [step])[..|steps|] == steps;
  }

  lemma AllTruthfulLonger(start: State, barriers: seq<Barrier>, steps: seq<Step>, step: Step)
    requires |steps| < |barriers| && AllTruthful(start, barriers, steps)
    requires Truthful(step, barriers[|steps|], start.uavs, start.tolerance, start.period)
    ensures AllTruthful(start, barriers, steps + [step])
  {
    var more := steps + [step];
    assert forall k | 0 <= k < |steps| :: more[k] == steps[k];
  }

  lemma InTimeLonger(start: State, barriers: seq<Barrier>, steps: seq<Step>, step: Step, before: Option<real>,
                     after: Option<real>)
    requires ClockForward(barriers) && |steps| < |barriers| && InTime(start, barriers, steps, step.before, before)
    requires Spacing(step, start.uavs, start.period - 2.0 * start.tolerance)
    requires Stalls(barriers[|steps|], step, start.tolerance, start.period) ==>
      Watched(before, after, barriers[|steps|].now, start.timeout)
    requires after.None? || after == before || after == Some(barriers[|steps|].now)
    ensures InTime(start, barriers, steps + [step], step.after, after)
  {
    ChainedLonger(steps, step, start.lastCamera, start.uavs, start.period - 2.0 * start.tolerance);
    WatchdogStep(barriers, steps, step, before, after, start.tolerance, start.period, start.timeout);
  }

  lemma {:induction false} RunValid(start: State, barriers: seq<Barrier>, n: nat)
    requires start.Valid() && n <= |barriers|
    ensures ValidSince(start, Through(start, barriers, n))
  {
    if n > 0 {
      RunValid(start, barriers, n - 1);
      StepValid(Through(start, barriers, n - 1), barriers[n - 1]);
    }
  }

  /** Another barrier keeps the cadence and the watchdog, and publishes truthfully. */
  lemma RunLonger(start: State, barriers: seq<Barrier>, steps: seq<Step>)
    requires start.Valid() && ClockForward(barriers) && |steps| < |barriers|
    requires Played(start, barriers, steps) && AllTruthful(start, barriers, steps)
    requires var s := Through(start, barriers, |steps|); InTime(start, barriers, steps, s.lastCamera, s.waitStarted)
    ensures var s, after := Through(start, barriers, |steps|), Through(start, barriers, |steps| + 1);
      var more := steps + [StepOf(s, barriers[|steps|])];
      && Played(start, barriers, more) && AllTruthful(start, barriers, more)
      && InTime(start, barriers, more, after.lastCamera, after.waitStarted)
  {
    var s, b := Through(start, barriers, |steps|), barriers[|steps|];
    RunValid(start, barriers, |steps|);
    StepTruthful(s, b);
    StepInTime(s, b);
    PlayedLonger(start, barriers, steps, StepOf(s, b));
    AllTruthfulLonger(start, barriers, steps, StepOf(s, b));
    InTimeLonger(start, barriers, steps, StepOf(s, b), s.waitStarted, Through(start, barriers, |steps| + 1).waitStarted);
  }

  /**
   Any barriers in clock order: what is published is what the sensors reported,
   batches keep the cadence, and however the renderer behaves, barriers that
   pass while a batch is overdue span less than the watchdog's timeout.
   */
  method RunBarriers(c: FleetCameras, barriers: seq<Barrier>) returns (steps: seq<Step>)
    requires c.Valid() && ClockForward(barriers)
    requires c.waitStarted.Some? ==> forall k | 0 <= k < |barriers| :: c.waitStarted.value <= barriers[k].now
    modifies c
    ensures c.Valid() && |steps| == |barriers| && c.Now() == Through(old(c.Now()), barriers, |barriers|)
    ensures Played(old(c.Now()), barriers, steps) && AllTruthful(old(c.Now()), barriers, steps)
    ensures Chained(steps, old(c.lastCamera), c.uavs, c.period - 2.0 * c.tolerance)
    ensures WatchdogKept(barriers, steps, c.tolerance, c.period, c.timeout)
  {
    steps := [];
    for n := 0 to |barriers|
      invariant |steps| == n && c.Valid() && c.Now() == Through(old(c.Now()), barriers, n)
      invariant Played(old(c.Now()), barriers, steps) && AllTruthful(old(c.Now()), barriers, steps)
      invariant InTime(old(c.Now()), barriers, steps, c.lastCamera, c.waitStarted)
    {
      RunLonger(old(c.Now()), barriers, steps);
      var step := TakeBarrier(c, barriers[n]);
      steps := steps + [step];
    }
    MindedMeans(barriers, steps, c.tolerance, c.period, c.timeout);
  }

  /** How many of the barriers after the i-th published. */
  function Publications(steps: seq<Step>, i: nat): nat {
    if |steps| <= i + 1 then 0
    else Publications(steps[..|steps| - 1], i) + if steps[|steps| - 1].published then 1 else 0
  }

  /** The cadence over a run: each vehicle's frames are a gap apart for every publication in between. */
  lemma {:induction false} CadenceOverRun(steps: seq<Step>, start: map<nat, real>, uavs: seq<nat>, gap: real, i: nat, u: nat)
    requires Chained(steps, start, uavs, gap) && i < |steps| && u in steps[i].after
    ensures u in History(steps, start)
    ensures History(steps, start)[u] >= steps[i].after[u] + Multiple(Publications(steps, i), gap)
  {
    if i < |steps| - 1 {
      var rest := steps[..|steps| - 1];
      CadenceOverRun(rest, start, uavs, gap, i, u);
      MultipleNext(Publications(rest, i), gap);
    }
  }

  /**
   After a batch is published the next capture finds an inconsistent history
   exactly when its frames, though within the tolerance, were not all at one
   time; and then every later capture fails and nothing is published.
   */
  method NextCaptureRefusedIff(c: FleetCameras, samples: map<nat, Meta>, pose: real, later: seq<(real, Renderer)>)
    returns (refused: bool, failures: nat)
    requires c.Valid() && samples != map[] && samples.Keys == Elements(c.uavs) && AllNear(samples, pose, c.tolerance)
    modifies c
    ensures refused <==> !Equal(Times(samples))
    ensures refused ==> failures == |later| && c.lastCamera == Times(samples)
  {
    var published := c.Publish(samples, pose, 0, false);
    var u :| u in samples;
    assert u in c.lastCamera;
    var cadence := c.CheckCadence(pose);
    refused, failures := cadence.Inconsistent?, 0;
    if refused {
      for i := 0 to |later|
        invariant c.Valid() && c.lastCamera == Times(samples) && failures == i
      {
        var ok, again := c.AdvanceBarrier(later[i].0, later[i].1, i + 1, false);
        if !ok {
          failures := failures + 1;
        }
      }
    }
  }

  /** Such a batch exists for any two vehicles, and passes both acceptance checks. */
  lemma UnequalBatchAccepted(pose: real, tolerance: real)
    requires tolerance > 0.0
    ensures var batch := map[0 := Meta(pose, None), 1 := Meta(pose + tolerance, None)];
      SameRender(batch, tolerance) && AllNear(batch, pose, tolerance) && !Equal(Times(batch))
  {
    var batch := map[0 := Meta(pose, None), 1 := Meta(pose + tolerance, None)];
    assert 0 in Times(batch) && 1 in Times(batch);
  }
}
