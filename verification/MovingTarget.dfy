/**
 The bounded target of uav_agent/env/moving_target.py: an event-driven
 integrator that reflects off world walls and obstacle boxes, and the turn
 clock of the random walk.
 */
module MovingTargets {
  import opened Common
  import opened Arithmetic
  import opened Geometry
  import opened SweptPoint
  import opened WallReflection

  datatype MotionMode = STATIC | LINEAR | RANDOM_WALK

  // -------------------------------------------------------- traced paths

  /** One straight piece of the path. */
  datatype Leg = Leg(start: Vec3, velocity: Vec3, duration: real) {
    function End(): Vec3 { start.Along(velocity, duration) }
  }

  /** The legs follow one another without a gap, from `from` to `to`. */
  predicate Joined(path: seq<Leg>, from: Vec3, to: Vec3) {
    if path == [] then from == to
    else var last := path[|path| - 1]; Joined(path[..|path| - 1], from, last.start) && last.End() == to
  }

  function Elapsed(path: seq<Leg>): real {
    if path == [] then 0.0 else Elapsed(path[..|path| - 1]) + path[|path| - 1].duration
  }

  /** No point of the leg is strictly inside an obstacle. */
  ghost predicate LegClear(leg: Leg, obstacles: seq<Box>) {
    leg.duration >= 0.0 &&
    forall i | 0 <= i < |obstacles| :: ClearUntil(obstacles[i], leg.start, leg.velocity, leg.duration)
  }

  /** No point of the leg is outside the world. */
  ghost predicate LegWithin(lo: Vec3, hi: Vec3, leg: Leg) {
    forall s | 0.0 <= s <= leg.duration :: InBounds(lo, hi, leg.start.Along(leg.velocity, s))
  }

  ghost predicate PathSafe(lo: Vec3, hi: Vec3, path: seq<Leg>, obstacles: seq<Box>) {
    forall i | 0 <= i < |path| :: LegWithin(lo, hi, path[i]) && LegClear(path[i], obstacles)
  }

  function Arrival(path: seq<Leg>, from: Vec3): Vec3 { if path == [] then from else path[|path| - 1].End() }

  /** Whatever the slack: legs without a gap at the target's own speeds, the first with its velocity, ending at `to`. */
  predicate Traced(path: seq<Leg>, from: Vec3, velocity: Vec3, to: Vec3) {
    if path == [] then from == to
    else
      var last, init := path[|path| - 1], path[..|path| - 1];
      && Traced(init, from, velocity, last.start) && last.End() == to && SameSpeeds(last.velocity, velocity)
      && (init == [] ==> last.velocity == velocity)
  }

  lemma LegTraced(path: seq<Leg>, from: Vec3, velocity: Vec3, leg: Leg)
    requires Traced(path, from, velocity, leg.start) && SameSpeeds(leg.velocity, velocity)
    requires path == [] ==> leg.velocity == velocity
    ensures Traced(path + [leg], from, velocity, leg.End()) && Elapsed(path + [leg]) == Elapsed(path) + leg.duration
  {
    assert (path + [leg])[..|path|] == path;
  }

  /** A complete, gap-free trace of `duration` seconds, in the world and outside the obstacles throughout. */
  ghost predicate SafeTrace(lo: Vec3, hi: Vec3, path: seq<Leg>, from: Vec3, to: Vec3, duration: real,
                            obstacles: seq<Box>) {
    Joined(path, from, to) && Elapsed(path) == duration && PathSafe(lo, hi, path, obstacles)
  }

  lemma TraceExtended(lo: Vec3, hi: Vec3, path: seq<Leg>, from: Vec3, leg: Leg, duration: real, obstacles: seq<Box>)
    requires SafeTrace(lo, hi, path, from, leg.start, duration, obstacles)
    requires LegWithin(lo, hi, leg) && LegClear(leg, obstacles)
    ensures SafeTrace(lo, hi, path + [leg], from, leg.End(), duration + leg.duration, obstacles)
  {
    assert (path + [leg])[..|path|] == path;
  }

  lemma TracesJoined(lo: Vec3, hi: Vec3, a: seq<Leg>, b: seq<Leg>, from: Vec3, mid: Vec3, to: Vec3,
                     d: real, e: real, obstacles: seq<Box>)
    requires SafeTrace(lo, hi, a, from, mid, d, obstacles) && SafeTrace(lo, hi, b, mid, to, e, obstacles)
    ensures SafeTrace(lo, hi, a + b, from, to, d + e, obstacles)
    decreases |b|
  {
    if b == [] {
      assert a + b == a;
    } else {
      var last := b[|b| - 1];
      var init := b[..|b| - 1];
      TracesJoined(lo, hi, a, init, from, mid, last.start, d, e - last.duration, obstacles);
      TraceExtended(lo, hi, a + init, from, last, d + e - last.duration, obstacles);
      assert a + b == a + init + [last];
    }
  }

  /** A wall or an obstacle turns the point back on this axis at time h. */
  ghost predicate Event(lo: Vec3, hi: Vec3, obstacles: seq<Box>, p: Vec3, v: Vec3, axis: nat, h: real)
    requires axis < 2
  {
    AtWall(lo, hi, p, v, axis, h) || exists i | 0 <= i < |obstacles| :: Strikes(obstacles[i], p, v, axis, h)
  }

  predicate Strikes(b: Box, p: Vec3, v: Vec3, axis: nat, h: real)
    requires axis < 2
  {
    EntryAt(b, p, v, h) && EntersThrough(b, p, v, h, axis)
  }

  /** After the leg exactly the axes with an event at its end have changed direction. */
  ghost predicate Turns(lo: Vec3, hi: Vec3, obstacles: seq<Box>, leg: Leg, v: Vec3) {
    && v.x == (if Event(lo, hi, obstacles, leg.start, leg.velocity, 0, leg.duration) then -leg.velocity.x else leg.velocity.x)
    && v.y == (if Event(lo, hi, obstacles, leg.start, leg.velocity, 1, leg.duration) then -leg.velocity.y else leg.velocity.y)
    && v.z == leg.velocity.z
  }

  /** The legs fly as a billiard ball would, starting with velocity v0 and ending with v. */
  ghost predicate Billiard(lo: Vec3, hi: Vec3, obstacles: seq<Box>, path: seq<Leg>, v0: Vec3, v: Vec3) {
    if path == [] then v == v0
    else
      var last := path[|path| - 1];
      Turns(lo, hi, obstacles, last, v) && Billiard(lo, hi, obstacles, path[..|path| - 1], v0, last.velocity)
  }

  /** A wall or an obstacle turns the point back at the end of the leg. */
  ghost predicate Collides(lo: Vec3, hi: Vec3, obstacles: seq<Box>, leg: Leg) {
    || Event(lo, hi, obstacles, leg.start, leg.velocity, 0, leg.duration)
    || Event(lo, hi, obstacles, leg.start, leg.velocity, 1, leg.duration)
  }

  ghost function Collisions(lo: Vec3, hi: Vec3, obstacles: seq<Box>, path: seq<Leg>): nat {
    if path == [] then 0
    else
      var last := path[|path| - 1];
      Collisions(lo, hi, obstacles, path[..|path| - 1]) + if Collides(lo, hi, obstacles, last) then 1 else 0
  }

  lemma CollisionsExtended(lo: Vec3, hi: Vec3, obstacles: seq<Box>, path: seq<Leg>, leg: Leg)
    ensures Collisions(lo, hi, obstacles, path + [leg]) ==
            Collisions(lo, hi, obstacles, path) + if Collides(lo, hi, obstacles, leg) then 1 else 0
  {
    assert (path + [leg])[..|path|] == path;
  }

  lemma BilliardExtended(lo: Vec3, hi: Vec3, obstacles: seq<Box>, path: seq<Leg>, v0: Vec3, leg: Leg, v: Vec3)
    requires Billiard(lo, hi, obstacles, path, v0, leg.velocity) && Turns(lo, hi, obstacles, leg, v)
    ensures Billiard(lo, hi, obstacles, path + [leg], v0, v)
  {
    assert (path + [leg])[..|path|] == path;
  }

  // ------------------------------------------------------------ predicates

  predicate InBounds(lo: Vec3, hi: Vec3, p: Vec3) {
    lo.x <= p.x <= hi.x && lo.y <= p.y <= hi.y && lo.z <= p.z <= hi.z
  }

  predicate Free(obstacles: seq<Box>, p: Vec3) {
    forall i | 0 <= i < |obstacles| :: !StrictlyInside(obstacles[i], p)
  }

  predicate SameSpeeds(v: Vec3, w: Vec3) {
    AbsReal(v.x) == AbsReal(w.x) && AbsReal(v.y) == AbsReal(w.y)
  }

  function Squared(v: Vec3): real { Product(v.x, v.x) + Product(v.y, v.y) + Product(v.z, v.z) }

  lemma SameSpeedsSameNorm(v: Vec3, w: Vec3)
    requires SameSpeeds(v, w) && v.z == w.z
    ensures Squared(v) == Squared(w)
  {
  }

  /** At time h the coordinate is still between the walls of this axis. */
  predicate WallOk(lo: Vec3, hi: Vec3, p: Vec3, v: Vec3, axis: nat, h: real)
    requires axis < 2
  {
    lo.At(axis) <= Reach(p.At(axis), v.At(axis), h) <= hi.At(axis)
  }

  function WallAhead(lo: Vec3, hi: Vec3, v: Vec3, axis: nat): real
    requires axis < 2
  {
    if v.At(axis) > 0.0 then hi.At(axis) else lo.At(axis)
  }

  predicate AtWall(lo: Vec3, hi: Vec3, p: Vec3, v: Vec3, axis: nat, h: real)
    requires axis < 2
  {
    v.At(axis) != 0.0 && Reach(p.At(axis), v.At(axis), h) == WallAhead(lo, hi, v, axis)
  }

  /** Earlier on the same flight the coordinate is inside the walls, and not yet at the one ahead. */
  lemma WallsEarlier(lo: Vec3, hi: Vec3, p: Vec3, v: Vec3, axis: nat, s: real, t: real)
    requires axis < 2 && 0.0 <= s <= t
    requires lo.At(axis) <= p.At(axis) <= hi.At(axis) && WallOk(lo, hi, p, v, axis, t)
    ensures WallOk(lo, hi, p, v, axis, s)
    ensures s < t ==> !AtWall(lo, hi, p, v, axis, s)
  {
    var value, speed := p.At(axis), v.At(axis);
    ReachStart(value, speed);
    if 0.0 < s {
      ReachOrder(value, speed, 0.0, s);
    }
    if s < t {
      ReachOrder(value, speed, s, t);
    }
  }

  lemma WallArrival(lo: Vec3, hi: Vec3, p: Vec3, v: Vec3, axis: nat, candidate: real)
    requires axis < 2 && v.At(axis) != 0.0
    requires candidate == (WallAhead(lo, hi, v, axis) - p.At(axis)) / v.At(axis)
    ensures forall h :: AtWall(lo, hi, p, v, axis, h) <==> h == candidate
  {
    var t := CrossingTime(WallAhead(lo, hi, v, axis), p.At(axis), v.At(axis));
    forall h ensures AtWall(lo, hi, p, v, axis, h) <==> h == candidate {
      if candidate < h {
        ReachOrder(p.At(axis), v.At(axis), candidate, h);
      }
    }
  }

  /** A horizontal leg that starts in the world and ends between its walls is in the world throughout. */
  lemma LegBetweenWalls(lo: Vec3, hi: Vec3, p: Vec3, v: Vec3, h: real)
    requires InBounds(lo, hi, p) && v.z == 0.0 && WallOk(lo, hi, p, v, 0, h) && WallOk(lo, hi, p, v, 1, h)
    ensures LegWithin(lo, hi, Leg(p, v, h))
  {
    StillAxis(p.z, v.z);
    forall s | 0.0 <= s <= h ensures InBounds(lo, hi, p.Along(v, s)) {
      WallsEarlier(lo, hi, p, v, 0, s, h);
      WallsEarlier(lo, hi, p, v, 1, s, h);
    }
  }

  /** The wall time computed by the integrator, and what it means on either side. */
  lemma WallTime(lo: Vec3, hi: Vec3, p: Vec3, v: Vec3, axis: nat, candidate: real)
    requires axis < 2 && v.At(axis) != 0.0 && lo.At(axis) < hi.At(axis)
    requires lo.At(axis) <= p.At(axis) <= hi.At(axis)
    requires candidate == (WallAhead(lo, hi, v, axis) - p.At(axis)) / v.At(axis)
    ensures candidate >= 0.0
    ensures forall h | 0.0 <= h <= candidate :: WallOk(lo, hi, p, v, axis, h)
    ensures forall h :: AtWall(lo, hi, p, v, axis, h) <==> h == candidate
  {
    var value, speed := p.At(axis), v.At(axis);
    var t := CrossingTime(WallAhead(lo, hi, v, axis), value, speed);
    ReachStart(value, speed);
    forall h ensures AtWall(lo, hi, p, v, axis, h) <==> h == candidate {
      if candidate < h {
        ReachOrder(value, speed, candidate, h);
      }
    }
    forall h | 0.0 <= h <= candidate ensures WallOk(lo, hi, p, v, axis, h) {
      WallsEarlier(lo, hi, p, v, axis, h, candidate);
    }
  }

  /** The wall events found so far are exact: nothing is overrun before h. */
  predicate WallsScanned(lo: Vec3, hi: Vec3, p: Vec3, v: Vec3, axes: nat, h: real, hitAxes: set<nat>)
    requires axes <= 2
  {
    && (forall j | 0 <= j < axes :: WallOk(lo, hi, p, v, j, h))
    && (forall j | 0 <= j < axes :: j in hitAxes <==> AtWall(lo, hi, p, v, j, h))
    && (forall j | j in hitAxes :: j < axes)
  }

  lemma WallsSooner(lo: Vec3, hi: Vec3, p: Vec3, v: Vec3, axes: nat, h: real, hitAxes: set<nat>, sooner: real)
    requires axes <= 2 && WallsScanned(lo, hi, p, v, axes, h, hitAxes)
    requires InBounds(lo, hi, p) && 0.0 <= sooner < h
    ensures WallsScanned(lo, hi, p, v, axes, sooner, {})
  {
    forall j | 0 <= j < axes ensures WallOk(lo, hi, p, v, j, sooner) && !AtWall(lo, hi, p, v, j, sooner) {
      WallsEarlier(lo, hi, p, v, j, sooner, h);
    }
  }

  /** The events of the walls and the first obstacles are exact, and no scanned obstacle is entered before h. */
  ghost predicate EventsScanned(lo: Vec3, hi: Vec3, obstacles: seq<Box>, p: Vec3, v: Vec3, scanned: nat, h: real,
                                hitAxes: set<nat>)
    requires scanned <= |obstacles|
  {
    && (forall t, j | 0.0 <= t < h && 0 <= j < scanned :: !EntryAt(obstacles[j], p, v, t))
    && (0 in hitAxes <==> Event(lo, hi, obstacles[..scanned], p, v, 0, h))
    && (1 in hitAxes <==> Event(lo, hi, obstacles[..scanned], p, v, 1, h))
  }

  lemma ObstacleScanned(lo: Vec3, hi: Vec3, obstacles: seq<Box>, p: Vec3, v: Vec3, i: nat, remaining: real,
                        h0: real, axes0: set<nat>, hit: Option<Hit>, h: real, axes: set<nat>)
    requires i < |obstacles| && 0.0 <= h0 <= remaining && InBounds(lo, hi, p)
    requires WallOk(lo, hi, p, v, 0, h0) && WallOk(lo, hi, p, v, 1, h0)
    requires EventsScanned(lo, hi, obstacles, p, v, i, h0, axes0) && axes0 <= {0, 1}
    requires axes0 == {} ==> h0 == remaining
    requires hit.None? ==> forall t | 0.0 <= t <= remaining :: !EntryAt(obstacles[i], p, v, t)
    requires hit.Some? ==>
      && 0.0 <= hit.value.time <= remaining && EntryAt(obstacles[i], p, v, hit.value.time) && hit.value.axes <= {0, 1}
      && (forall a | 0 <= a < 2 :: a in hit.value.axes <==> EntersThrough(obstacles[i], p, v, hit.value.time, a))
      && (forall t | EntryAt(obstacles[i], p, v, t) :: t == hit.value.time)
    requires h == if hit.Some? && hit.value.time < h0 then hit.value.time else h0
    requires axes == (if hit.None? || hit.value.time > h0 then axes0
                      else if hit.value.time < h0 then hit.value.axes else axes0 + hit.value.axes)
    ensures EventsScanned(lo, hi, obstacles, p, v, i + 1, h, axes)
  {
    var n := i + 1;
    if h < h0 {
      WallsEarlier(lo, hi, p, v, 0, h, h0);
      WallsEarlier(lo, hi, p, v, 1, h, h0);
    }
    AxisScanned(lo, hi, obstacles, p, v, i, 0, h0, axes0, hit, h, axes);
    AxisScanned(lo, hi, obstacles, p, v, i, 1, h0, axes0, hit, h, axes);
  }

  lemma AxisScanned(lo: Vec3, hi: Vec3, obstacles: seq<Box>, p: Vec3, v: Vec3, i: nat, axis: nat,
                    h0: real, axes0: set<nat>, hit: Option<Hit>, h: real, axes: set<nat>)
    requires i < |obstacles| && axis < 2 && 0.0 <= h <= h0
    requires h < h0 ==> !AtWall(lo, hi, p, v, axis, h)
    requires forall t, j | 0.0 <= t < h0 && 0 <= j < i :: !EntryAt(obstacles[j], p, v, t)
    requires axis in axes0 <==> Event(lo, hi, obstacles[..i], p, v, axis, h0)
    requires hit.None? ==> !EntryAt(obstacles[i], p, v, h)
    requires hit.Some? ==>
      && EntryAt(obstacles[i], p, v, hit.value.time)
      && (axis in hit.value.axes <==> EntersThrough(obstacles[i], p, v, hit.value.time, axis))
      && (forall t | EntryAt(obstacles[i], p, v, t) :: t == hit.value.time)
    requires h == if hit.Some? && hit.value.time < h0 then hit.value.time else h0
    requires axes == (if hit.None? || hit.value.time > h0 then axes0
                      else if hit.value.time < h0 then hit.value.axes else axes0 + hit.value.axes)
    ensures axis in axes <==> Event(lo, hi, obstacles[..i + 1], p, v, axis, h)
  {
    var n := i + 1;
    assert forall j | 0 <= j < i :: obstacles[..n][j] == obstacles[..i][j] == obstacles[j];
    assert obstacles[..n][i] == obstacles[i];
    assert Strikes(obstacles[i], p, v, axis, h) <==> hit.Some? && hit.value.time == h && axis in hit.value.axes;
  }

  /** The event at h, or the end, comes no later than the tolerance after any entry of the first obstacles. */
  ghost predicate InTime(obstacles: seq<Box>, p: Vec3, v: Vec3, scanned: nat, h: real, tolerance: real) {
    forall j, t | 0 <= j < scanned && j < |obstacles| && t >= 0.0 && EntryAt(obstacles[j], p, v, t) :: h <= t + tolerance
  }

  ghost predicate NoneWithin(obstacles: seq<Box>, p: Vec3, v: Vec3, scanned: nat, remaining: real) {
    forall j, t | 0 <= j < scanned && j < |obstacles| && 0.0 <= t <= remaining :: !EntryAt(obstacles[j], p, v, t)
  }

  /**
   Moving on axis 0 alone the point is at the wall ahead at wallTime, and the leading
   crossing of no obstacle is more than the tolerance before.
   */
  ghost predicate MergesAtWall(lo: Vec3, hi: Vec3, obstacles: seq<Box>, p: Vec3, v: Vec3, slack: Slack, wallTime: real) {
    && v.z == 0.0 && AbsReal(v.x) > slack.still && AbsReal(v.y) <= slack.still && AtWall(lo, hi, p, v, 0, wallTime)
    && forall i, e | 0 <= i < |obstacles| && LeadsAt(obstacles[i], p, Swept(v, slack.still), e, slack.tolerance) ::
         wallTime - slack.tolerance <= e
  }

  /** Horizontal, with axis speeds of at most 1. */
  predicate Gentle(v: Vec3, slack: Slack) {
    slack.tolerance > 0.0 && v.z == 0.0 && AbsReal(v.x) <= 1.0 && AbsReal(v.y) <= 1.0
  }

  lemma NextInTime(obstacles: seq<Box>, p: Vec3, v: Vec3, i: nat, slack: Slack, remaining: real,
                   h0: real, hit: Option<Hit>, h: real)
    requires i < |obstacles| && slack.Valid() && Gentle(v, slack) && h <= remaining + slack.tolerance
    requires NoneWithin(obstacles, p, v, i, remaining) || (InTime(obstacles, p, v, i, h0, slack.tolerance) && h <= h0)
    requires hit.Some? ==> h <= hit.value.time + slack.tolerance
    requires Answers(obstacles[i], p, v, remaining, slack.tolerance, hit)
    ensures InTime(obstacles, p, v, i + 1, h, slack.tolerance)
    ensures NoneWithin(obstacles, p, v, i, remaining) && hit.None? ==> NoneWithin(obstacles, p, v, i + 1, remaining)
  {
    forall t | 0.0 <= t <= remaining && EntryAt(obstacles[i], p, v, t) ensures hit.Some? && hit.value.time <= t {
      SlowEntryReported(obstacles[i], p, v, t, remaining, slack.tolerance, hit);
    }
  }

  /** An entry at axis speeds of at most 1 is reported, and not late. */
  lemma SlowEntryReported(b: Box, p: Vec3, v: Vec3, t: real, maxTime: real, tolerance: real, hit: Option<Hit>)
    requires tolerance > 0.0 && v.z == 0.0 && AbsReal(v.x) <= 1.0 && AbsReal(v.y) <= 1.0
    requires 0.0 <= t <= maxTime && EntryAt(b, p, v, t) && Answers(b, p, v, maxTime, tolerance, hit)
    ensures hit.Some? && hit.value.time <= t
  {
    SlowEntryKept(b, p, v, t, tolerance);
    var e := DropLaw(b, p, v, t, maxTime, tolerance);
    assert hit.Some?;
    var f :| ReportedAt(b, p, v, f, maxTime, tolerance) && HitOf(b, p, v, f, tolerance, hit.value);
    OneLead(b, p, v, tolerance, e, f);
  }

  /** The first event found so far, and the axes to reflect. */
  datatype Found = Found(some: bool, time: real, axes: set<nat>)

  /** Events within the tolerance of the one found first are merged with it. */
  function Merge(f: Found, time: real, axes: set<nat>, tolerance: real): Found {
    if !f.some || time < f.time - tolerance then Found(true, time, axes)
    else if AbsReal(time - f.time) <= tolerance then f.(axes := f.axes + axes)
    else f
  }

  predicate Merged(found0: bool, h0: real, axes0: set<nat>, hit: Option<Hit>, tolerance: real,
                   found: bool, h: real, axes: set<nat>)
  {
    var f := Found(found0, h0, axes0);
    Found(found, h, axes) == if hit.None? then f else Merge(f, hit.value.time, hit.value.axes, tolerance)
  }

  /** What the scan of the first obstacles has established without slack. */
  ghost predicate ExactScan(lo: Vec3, hi: Vec3, obstacles: seq<Box>, p: Vec3, v: Vec3, scanned: nat, remaining: real,
                            h: real, axes: set<nat>)
    requires scanned <= |obstacles|
  {
    && h <= remaining && WallOk(lo, hi, p, v, 0, h) && WallOk(lo, hi, p, v, 1, h)
    && (forall j | 0 <= j < scanned :: ClearUntil(obstacles[j], p, v, h))
    && EventsScanned(lo, hi, obstacles, p, v, scanned, h, axes)
    && (obstacles == [] ==> WallsScanned(lo, hi, p, v, 2, h, axes))
  }

  ghost predicate OnlyEntry(b: Box, p: Vec3, v: Vec3, remaining: real, hit: Hit) {
    && hit.time <= remaining && EntryAt(b, p, v, hit.time)
    && (forall a | 0 <= a < 2 :: a in hit.axes <==> EntersThrough(b, p, v, hit.time, a))
    && (forall t | EntryAt(b, p, v, t) :: t == hit.time)
  }

  lemma ExactScanNext(lo: Vec3, hi: Vec3, obstacles: seq<Box>, p: Vec3, v: Vec3, i: nat, remaining: real,
                      found0: bool, h0: real, axes0: set<nat>, hit: Option<Hit>, found: bool, h: real, axes: set<nat>)
    requires i < |obstacles| && InBounds(lo, hi, p) && v.z == 0.0 && Free(obstacles, p)
    requires ExactScan(lo, hi, obstacles, p, v, i, remaining, h0, axes0) && h0 >= 0.0 && axes0 <= {0, 1}
    requires (found0 <==> axes0 != {}) && (!found0 ==> h0 == remaining)
    requires hit.None? ==> forall t | 0.0 <= t <= remaining :: !EntryAt(obstacles[i], p, v, t)
    requires hit.Some? ==>
      0.0 <= hit.value.time && hit.value.axes <= {0, 1} && OnlyEntry(obstacles[i], p, v, remaining, hit.value)
    requires Merged(found0, h0, axes0, hit, 0.0, found, h, axes)
    ensures ExactScan(lo, hi, obstacles, p, v, i + 1, remaining, h, axes)
  {
    ClearToHit(obstacles[i], p, v, remaining, hit);
    WallsEarlier(lo, hi, p, v, 0, h, h0);
    WallsEarlier(lo, hi, p, v, 1, h, h0);
    ObstacleScanned(lo, hi, obstacles, p, v, i, remaining, h0, axes0, hit, h, axes);
  }

  /** What the scan of the first obstacles has established with any slack. */
  ghost predicate SlackScan(lo: Vec3, hi: Vec3, obstacles: seq<Box>, p: Vec3, v: Vec3, slack: Slack, scanned: nat,
                            remaining: real, found: bool, h: real)
  {
    && h <= remaining + slack.tolerance
    && (Gentle(v, slack) ==> InTime(obstacles, p, Swept(v, slack.still), scanned, h, slack.tolerance))
    && (Gentle(v, slack) && !found ==> NoneWithin(obstacles, p, Swept(v, slack.still), scanned, remaining))
    && forall at | 0.0 <= at <= remaining && MergesAtWall(lo, hi, obstacles, p, v, slack, at) :: found && h == at
  }

  lemma SlackScanNext(lo: Vec3, hi: Vec3, obstacles: seq<Box>, p: Vec3, v: Vec3, slack: Slack, i: nat, remaining: real,
                      found0: bool, h0: real, axes0: set<nat>, hit: Option<Hit>, found: bool, h: real, axes: set<nat>)
    requires i < |obstacles| && slack.Valid() && h0 >= 0.0
    requires SlackScan(lo, hi, obstacles, p, v, slack, i, remaining, found0, h0)
    requires Merged(found0, h0, axes0, hit, slack.tolerance, found, h, axes)
    requires hit.Some? ==> hit.value.time <= remaining + slack.tolerance
    requires v.z == 0.0 ==> Answers(obstacles[i], p, Swept(v, slack.still), remaining, slack.tolerance, hit)
    ensures SlackScan(lo, hi, obstacles, p, v, slack, i + 1, remaining, found, h)
  {
    if Gentle(v, slack) {
      NextInTime(obstacles, p, Swept(v, slack.still), i, slack, remaining, h0, hit, h);
    }
  }

  /** When the target reaches the wall ahead on this axis, if it does within the remaining time. */
  function WallEvent(lo: Vec3, hi: Vec3, p: Vec3, v: Vec3, slack: Slack, remaining: real, axis: nat): Option<real>
    requires slack.Valid() && axis < 2
  {
    var speed := v.At(axis);
    if AbsReal(speed) <= slack.still then None
    else
      var time := ((if speed > 0.0 then hi.At(axis) else lo.At(axis)) - p.At(axis)) / speed;
      if -slack.tolerance <= time <= remaining + slack.tolerance then Some(MaxReal(0.0, time)) else None
  }

  function WallsFound(lo: Vec3, hi: Vec3, p: Vec3, v: Vec3, slack: Slack, remaining: real, axes: nat): Found
    requires slack.Valid() && axes <= 2
  {
    if axes == 0 then Found(false, remaining, {})
    else
      var f := WallsFound(lo, hi, p, v, slack, remaining, axes - 1);
      match WallEvent(lo, hi, p, v, slack, remaining, axes - 1)
      case None => f
      case Some(time) => Merge(f, time, {axes - 1}, slack.tolerance)
  }

  /** Scanning one obstacle goes from one event found to another. */
  ghost predicate FoundWith(b: Box, p: Vec3, v: Vec3, slack: Slack, remaining: real, f0: Found, f: Found) {
    exists hit: Option<Hit> ::
      && Answers(b, p, Swept(v, slack.still), remaining, slack.tolerance, hit)
      && f == if hit.None? then f0 else Merge(f0, hit.value.time, hit.value.axes, slack.tolerance)
  }

  /** The event found among the walls and the first n obstacles, with any slack. */
  ghost predicate FoundAmong(lo: Vec3, hi: Vec3, obstacles: seq<Box>, p: Vec3, v: Vec3, slack: Slack, remaining: real,
                             n: nat, f: Found)
    requires slack.Valid() && n <= |obstacles|
    decreases n, 1
  {
    if n == 0 then f == WallsFound(lo, hi, p, v, slack, remaining, 2)
    else exists f0: Found :: FoundAfter(lo, hi, obstacles, p, v, slack, remaining, n, f0, f)
  }

  ghost predicate FoundAfter(lo: Vec3, hi: Vec3, obstacles: seq<Box>, p: Vec3, v: Vec3, slack: Slack, remaining: real,
                             n: nat, f0: Found, f: Found)
    requires slack.Valid() && 0 < n <= |obstacles|
    decreases n, 0
  {
    && FoundAmong(lo, hi, obstacles, p, v, slack, remaining, n - 1, f0)
    && FoundWith(obstacles[n - 1], p, v, slack, remaining, f0, f)
  }

  /** What one scan has established about the walls and the first obstacles. */
  ghost predicate ScannedTo(lo: Vec3, hi: Vec3, obstacles: seq<Box>, p: Vec3, v: Vec3, slack: Slack, exact: bool, n: nat,
                            remaining: real, f: Found)
    requires slack.Valid() && n <= |obstacles|
  {
    && (exact ==> ExactScan(lo, hi, obstacles, p, v, n, remaining, f.time, f.axes))
    && SlackScan(lo, hi, obstacles, p, v, slack, n, remaining, f.some, f.time)
    && (v.z == 0.0 ==> FoundAmong(lo, hi, obstacles, p, v, slack, remaining, n, f))
  }

  lemma ScannedWalls(lo: Vec3, hi: Vec3, obstacles: seq<Box>, p: Vec3, v: Vec3, slack: Slack, exact: bool, remaining: real,
                     f: Found)
    requires slack.Valid() && f == WallsFound(lo, hi, p, v, slack, remaining, 2) && f.time <= remaining + slack.tolerance
    requires exact ==> f.time <= remaining && WallsScanned(lo, hi, p, v, 2, f.time, f.axes)
    requires AbsReal(v.x) > slack.still && AbsReal(v.y) <= slack.still ==>
      forall at | 0.0 <= at <= remaining && AtWall(lo, hi, p, v, 0, at) :: f.some && f.time == at
    ensures ScannedTo(lo, hi, obstacles, p, v, slack, exact, 0, remaining, f)
  {
  }

  /** What the swept-point test promises of its answer. */
  ghost predicate HitLaw(b: Box, p: Vec3, v: Vec3, slack: Slack, remaining: real, hit: Option<Hit>) {
    && (hit.Some? ==> 0.0 <= hit.value.time <= remaining + slack.tolerance && hit.value.axes <= {0, 1})
    && (v.z == 0.0 ==> Answers(b, p, Swept(v, slack.still), remaining, slack.tolerance, hit))
    && (slack.Exact() ==>
          if hit.None? then forall t | 0.0 <= t <= remaining :: !EntryAt(b, p, v, t)
          else OnlyEntry(b, p, v, remaining, hit.value))
  }

  lemma ScannedNext(lo: Vec3, hi: Vec3, obstacles: seq<Box>, p: Vec3, v: Vec3, slack: Slack, exact: bool, n: nat,
                    remaining: real, f0: Found, hit: Option<Hit>, f: Found)
    requires slack.Valid() && n < |obstacles| && ScannedTo(lo, hi, obstacles, p, v, slack, exact, n, remaining, f0)
    requires exact ==> slack.Exact() && InBounds(lo, hi, p) && v.z == 0.0 && Free(obstacles, p)
    requires f0.time >= 0.0 && f0.axes <= {0, 1} && (f0.some <==> f0.axes != {}) && (!f0.some ==> f0.time == remaining)
    requires HitLaw(obstacles[n], p, v, slack, remaining, hit)
    requires f == if hit.None? then f0 else Merge(f0, hit.value.time, hit.value.axes, slack.tolerance)
    ensures ScannedTo(lo, hi, obstacles, p, v, slack, exact, n + 1, remaining, f)
  {
    SlackScanNext(lo, hi, obstacles, p, v, slack, n, remaining, f0.some, f0.time, f0.axes, hit, f.some, f.time, f.axes);
    if exact {
      ExactScanNext(lo, hi, obstacles, p, v, n, remaining, f0.some, f0.time, f0.axes, hit, f.some, f.time, f.axes);
    }
    if v.z == 0.0 {
      assert FoundWith(obstacles[n], p, v, slack, remaining, f0, f);
      assert FoundAfter(lo, hi, obstacles, p, v, slack, remaining, n + 1, f0, f);
    }
  }

  /** How a leg of the event loop ends: at an event, with the time used up, or it is a hop after an event. */
  datatype Ending = AtEvent | AtEnd | AtHop

  /** The leg flies to the event found in what remains of the total time, and leaves with this velocity. */
  ghost predicate EventLeg(lo: Vec3, hi: Vec3, obstacles: seq<Box>, slack: Slack, leg: Leg, remaining: real, after: Vec3,
                           bounce: bool)
    requires slack.Valid()
  {
    exists f: Found ::
      && FoundAmong(lo, hi, obstacles, leg.start, leg.velocity, slack, remaining, |obstacles|, f)
      && leg.duration == f.time && after == Reflected(leg.velocity, f.axes) && bounce == f.some
  }

  /** What does not change between resets: the world, its obstacles and the slacks. */
  datatype Room = Room(lo: Vec3, hi: Vec3, obstacles: seq<Box>, slack: Slack, exact: bool, turnSlack: real, interval: real)
  {
    predicate Valid() {
      lo.x <= hi.x && lo.y <= hi.y && lo.z <= hi.z && slack.Valid() && turnSlack >= 0.0 && interval > 0.0
    }

    /** The next segment of a walk: to the next turn or to the end of the time. */
    function Segment(index: nat, now: real, end: real): real
      requires Valid()
    {
      MinReal(end - now, TimeToTurn(index, now, interval))
    }

    predicate TurnIsDue(index: nat, now: real, end: real)
      requires Valid()
    {
      TimeToTurn(index, now, interval) <= Segment(index, now, end) + turnSlack
    }
  }

  /** An event has just been reached, so soon that it calls for a hop. */
  predicate HopDue(path: seq<Leg>, endings: seq<Ending>, tolerance: real, remaining: real)
    requires |endings| == |path|
  {
    path != [] && endings[|path| - 1].AtEvent? && path[|path| - 1].duration <= tolerance && remaining > 0.0
  }

  /**
   The next leg, with any slack: it flies to the event found and is reflected
   there, unless it is a hop.  A hop follows exactly an event reached within the
   tolerance, for the tolerance or for what is left of the total time.
   */
  ghost predicate NextLeg(w: Room, path: seq<Leg>, endings: seq<Ending>, total: real, leg: Leg, ending: Ending, after: Vec3)
    requires w.Valid() && |endings| == |path|
  {
    var remaining := total - Elapsed(path);
    && ending.AtHop? == HopDue(path, endings, w.slack.tolerance, remaining)
    && if ending.AtHop? then leg.duration == MinReal(remaining, w.slack.tolerance) && after == leg.velocity
       else EventLeg(w.lo, w.hi, w.obstacles, w.slack, leg, remaining, after, ending.AtEvent?)
  }

  ghost predicate Looped(w: Room, path: seq<Leg>, endings: seq<Ending>, total: real, velocity: Vec3)
    requires w.Valid()
  {
    |endings| == |path| &&
    (path == [] ||
     var n := |path| - 1;
     && Looped(w, path[..n], endings[..n], total, path[n].velocity)
     && NextLeg(w, path[..n], endings[..n], total, path[n], endings[n], velocity))
  }

  function EventsIn(endings: seq<Ending>): nat {
    if endings == [] then 0 else EventsIn(endings[..|endings| - 1]) + if endings[|endings| - 1].AtEvent? then 1 else 0
  }

  lemma LoopedOn(w: Room, path: seq<Leg>, endings: seq<Ending>, total: real, leg: Leg, ending: Ending, velocity: Vec3)
    requires w.Valid() && Looped(w, path, endings, total, leg.velocity)
    requires NextLeg(w, path, endings, total, leg, ending, velocity)
    ensures Looped(w, path + [leg], endings + [ending], total, velocity)
    ensures EventsIn(endings + [ending]) == EventsIn(endings) + if ending.AtEvent? then 1 else 0
  {
    assert (path + [leg])[..|path|] == path && (endings + [ending])[..|path|] == endings;
  }

  /** What the event loop has done so far: its legs and how each ended, the wall contacts per axis, the events. */
  datatype Log = Log(path: seq<Leg>, endings: seq<Ending>, n0: nat, n1: nat, events: nat)
  {
    function With(leg: Leg, axes: set<nat>): Log {
      Log(path + [leg], endings + [if axes != {} then AtEvent else AtEnd], n0 + Hits(axes, 0), n1 + Hits(axes, 1),
          if axes != {} then events + 1 else events)
    }
  }

  /** So far: a traced path at the target's own speeds, leg by leg by the event loop, and without slack an exact flight. */
  ghost predicate InFlight(w: Room, log: Log, from: Vec3, first: Vec3, dt: real, remaining: real, p: Vec3, v: Vec3)
    requires w.Valid()
  {
    && SameSpeeds(v, first) && v.z == 0.0 && (log.path == [] ==> v == first)
    && Traced(log.path, from, first, p) && Elapsed(log.path) == dt - remaining && |log.endings| >= |log.path|
    && if w.exact then
         Underway(w.lo, w.hi, w.obstacles, log.path, from, first, dt, remaining, p, v, log.n0, log.n1, log.events)
       else Looped(w, log.path, log.endings, dt, v) && EventsIn(log.endings) == log.events
  }

  ghost predicate HopPending(w: Room, log: Log, remaining: real) {
    !w.exact && |log.endings| == |log.path| && HopDue(log.path, log.endings, w.slack.tolerance, remaining)
  }

  /** One event is one more leg of the path. */
  lemma FlightGoesOn(w: Room, log: Log, from: Vec3, first: Vec3, dt: real, remaining: real, p: Vec3, v: Vec3,
                     h: real, axes: set<nat>)
    requires w.Valid() && InFlight(w, log, from, first, dt, remaining, p, v) && !HopPending(w, log, remaining)
    requires axes <= {0, 1}
    requires w.exact ==> 0.0 <= h <= remaining && ExactEvent(w.lo, w.hi, w.obstacles, p, v, h, axes)
    requires EventLeg(w.lo, w.hi, w.obstacles, w.slack, Leg(p, v, h), remaining, Reflected(v, axes), axes != {})
    ensures InFlight(w, log.With(Leg(p, v, h), axes), from, first, dt, remaining - h, p.Along(v, h), Reflected(v, axes))
    ensures HopPending(w, log.With(Leg(p, v, h), axes), remaining - h) <==>
            !w.exact && axes != {} && h <= w.slack.tolerance && remaining - h > 0.0
  {
    var more := log.With(Leg(p, v, h), axes);
    LegTraced(log.path, from, first, Leg(p, v, h));
    if w.exact {
      UnderwayNext(w.lo, w.hi, w.obstacles, log.path, from, first, dt, remaining, p, v, log.n0, log.n1, log.events, h, axes);
    } else {
      LoopedOn(w, log.path, log.endings, dt, Leg(p, v, h), more.endings[|log.path|], Reflected(v, axes));
    }
  }

  /** A hop is a leg of the traced path. */
  lemma FlightHops(w: Room, log: Log, from: Vec3, first: Vec3, dt: real, remaining: real, p: Vec3, v: Vec3)
    requires w.Valid() && InFlight(w, log, from, first, dt, remaining, p, v) && HopPending(w, log, remaining)
    ensures var h := MinReal(remaining, w.slack.tolerance);
      var more := log.(path := log.path + [Leg(p, v, h)], endings := log.endings + [AtHop]);
      InFlight(w, more, from, first, dt, remaining - h, p.Along(v, h), v) && !HopPending(w, more, remaining - h)
  {
    var hop := Leg(p, v, MinReal(remaining, w.slack.tolerance));
    LegTraced(log.path, from, first, hop);
    LoopedOn(w, log.path, log.endings, dt, hop, AtHop, v);
  }

  /** How deep a leg of h seconds can go: the tolerance, and what the neglected components drift. */
  function DepthBound(h: real, slack: Slack): real { slack.tolerance + Product(slack.still, h) }

  /** A gentle leg from a free position, ended in time, goes at most that deep into any obstacle. */
  lemma GentleLegShallow(obstacles: seq<Box>, p: Vec3, v: Vec3, h: real, slack: Slack)
    requires slack.Valid() && Gentle(v, slack) && Free(obstacles, p)
    requires InTime(obstacles, p, Swept(v, slack.still), |obstacles|, h, slack.tolerance)
    ensures forall i | 0 <= i < |obstacles| :: ShallowUntil(obstacles[i], p, v, h, DepthBound(h, slack))
  {
    var w := Swept(v, slack.still);
    forall i | 0 <= i < |obstacles| ensures ShallowUntil(obstacles[i], p, v, h, DepthBound(h, slack)) {
      ShallowAfterEntry(obstacles[i], p, w, h, slack.tolerance);
      forall s | 0.0 <= s <= h ensures !Deep(obstacles[i], p.Along(v, s), DepthBound(h, slack)) {
        NeglectedDrift(p.x, v.x, s, h, slack.still);
        NeglectedDrift(p.y, v.y, s, h, slack.still);
        assert !Deep(obstacles[i], p.Along(w, s), slack.tolerance);
      }
    }
  }

  lemma NeglectedDrift(value: real, speed: real, s: real, h: real, still: real)
    requires 0.0 <= s <= h && still >= 0.0
    ensures AbsReal(Reach(value, speed, s) - Reach(value, Effective(speed, still), s)) <= Product(still, h)
  {
    if AbsReal(speed) <= still {
      StillAxis(value, 0.0);
      ProductGrows(AbsReal(speed), still, s, h);
      ProductSign(speed, s);
    } else {
      ProductGrows(0.0, still, 0.0, h);
    }
  }

  /**
   What a leg of h seconds keeps with any slack: from a free position at axis
   speeds of at most 1 it goes at most the bound deep into any obstacle; and one
   whose first event is merged with a wall ends at the wall.
   */
  ghost predicate SlackLeg(lo: Vec3, hi: Vec3, obstacles: seq<Box>, p: Vec3, v: Vec3, slack: Slack,
                           remaining: real, h: real)
  {
    && (Gentle(v, slack) && Free(obstacles, p) ==>
          forall i | 0 <= i < |obstacles| :: ShallowUntil(obstacles[i], p, v, h, DepthBound(h, slack)))
    && forall at | 0.0 <= at <= remaining && MergesAtWall(lo, hi, obstacles, p, v, slack, at) :: h == at
  }

  /** The velocity after reflecting the given axes. */
  function Reflected(v: Vec3, axes: set<nat>): (w: Vec3)
    ensures SameSpeeds(v, w) && w.z == v.z
  {
    Vec3(if 0 in axes then -v.x else v.x, if 1 in axes then -v.y else v.y, v.z)
  }

  // --------------------------------------------- the obstacle-free motion

  /** Both horizontal axes have unfolded `elapsed` seconds of the motion from (p0, v0). */
  predicate Bounced(lo: Vec3, hi: Vec3, p0: Vec3, v0: Vec3, elapsed: real, p: Vec3, v: Vec3, n0: nat, n1: nat) {
    && Unfolded(lo.x, hi.x, p0.x, v0.x, Product(AbsReal(v0.x), elapsed), p.x, v.x, n0)
    && Unfolded(lo.y, hi.y, p0.y, v0.y, Product(AbsReal(v0.y), elapsed), p.y, v.y, n1)
  }

  predicate BothSettled(lo: Vec3, hi: Vec3, p: Vec3, v: Vec3) {
    Settled(lo.x, hi.x, p.x, v.x) && Settled(lo.y, hi.y, p.y, v.y)
  }

  /** One iteration of the event loop, when only walls are hit. */
  lemma EventStep(lo: Vec3, hi: Vec3, p0: Vec3, v0: Vec3, elapsed: real, p: Vec3, v: Vec3, n0: nat, n1: nat,
                  h: real, axes: set<nat>)
    requires Bounced(lo, hi, p0, v0, elapsed, p, v, n0, n1) && WallsScanned(lo, hi, p, v, 2, h, axes)
    ensures Bounced(lo, hi, p0, v0, elapsed + h, p.Along(v, h), Reflected(v, axes),
                    n0 + (if 0 in axes then 1 else 0), n1 + (if 1 in axes then 1 else 0))
    ensures BothSettled(lo, hi, p.Along(v, h), Reflected(v, axes))
  {
    assert WallOk(lo, hi, p, v, 0, h) && WallOk(lo, hi, p, v, 1, h);
    assert 0 in axes <==> AtWall(lo, hi, p, v, 0, h);
    assert 1 in axes <==> AtWall(lo, hi, p, v, 1, h);
    AxisStep(lo.x, hi.x, p0.x, v0.x, elapsed, p.x, v.x, n0, h, 0 in axes);
    AxisStep(lo.y, hi.y, p0.y, v0.y, elapsed, p.y, v.y, n1, h, 1 in axes);
  }

  lemma AxisStep(lo: real, hi: real, p0: real, v0: real, elapsed: real, p: real, v: real, n: nat, h: real, hit: bool)
    requires Unfolded(lo, hi, p0, v0, Product(AbsReal(v0), elapsed), p, v, n)
    requires lo <= Reach(p, v, h) <= hi
    requires hit <==> v != 0.0 && Reach(p, v, h) == if v > 0.0 then hi else lo
    ensures Unfolded(lo, hi, p0, v0, Product(AbsReal(v0), elapsed + h), Reach(p, v, h), if hit then -v else v,
                     if hit then n + 1 else n)
    ensures Settled(lo, hi, Reach(p, v, h), if hit then -v else v)
  {
    Drift(lo, hi, p0, v0, elapsed, p, v, n, h);
    if hit {
      Bounce(lo, hi, p0, v0, Product(AbsReal(v0), elapsed + h), Reach(p, v, h), v, n);
    }
  }

  /** What an exact flight of `elapsed` seconds from (p0, v0) has kept and traced. */
  ghost predicate Flight(lo: Vec3, hi: Vec3, obstacles: seq<Box>, path: seq<Leg>, p0: Vec3, v0: Vec3, elapsed: real,
                         p: Vec3, v: Vec3, n0: nat, n1: nat)
  {
    && InBounds(lo, hi, p) && Free(obstacles, p) && p.z == p0.z && v.z == 0.0
    && SafeTrace(lo, hi, path, p0, p, elapsed, obstacles) && Billiard(lo, hi, obstacles, path, v0, v)
    && (obstacles == [] ==> Bounced(lo, hi, p0, v0, elapsed, p, v, n0, n1))
  }

  /** An exact event: nothing is overrun or entered before h, and `axes` are exactly the axes to reflect then. */
  ghost predicate ExactEvent(lo: Vec3, hi: Vec3, obstacles: seq<Box>, p: Vec3, v: Vec3, h: real, axes: set<nat>) {
    && WallOk(lo, hi, p, v, 0, h) && WallOk(lo, hi, p, v, 1, h) && LegClear(Leg(p, v, h), obstacles)
    && EventsScanned(lo, hi, obstacles, p, v, |obstacles|, h, axes)
    && (obstacles == [] ==> WallsScanned(lo, hi, p, v, 2, h, axes))
  }

  function Hits(axes: set<nat>, axis: nat): nat { if axis in axes then 1 else 0 }

  lemma FlightExtended(lo: Vec3, hi: Vec3, obstacles: seq<Box>, path: seq<Leg>, p0: Vec3, v0: Vec3, elapsed: real,
                       p: Vec3, v: Vec3, n0: nat, n1: nat, h: real, axes: set<nat>)
    requires Flight(lo, hi, obstacles, path, p0, v0, elapsed, p, v, n0, n1)
    requires ExactEvent(lo, hi, obstacles, p, v, h, axes)
    ensures Flight(lo, hi, obstacles, path + [Leg(p, v, h)], p0, v0, elapsed + h, p.Along(v, h), Reflected(v, axes),
                   n0 + Hits(axes, 0), n1 + Hits(axes, 1))
    ensures obstacles == [] ==> BothSettled(lo, hi, p.Along(v, h), Reflected(v, axes))
  {
    var leg := Leg(p, v, h);
    assert obstacles[..|obstacles|] == obstacles;
    LegBetweenWalls(lo, hi, p, v, h);
    TraceExtended(lo, hi, path, p0, leg, elapsed, obstacles);
    BilliardExtended(lo, hi, obstacles, path, v0, leg, Reflected(v, axes));
    StillAxis(p.z, v.z);
    ClearAtEnd(leg, obstacles);
    if obstacles == [] {
      EventStep(lo, hi, p0, v0, elapsed, p, v, n0, n1, h, axes);
    }
  }

  /** The closed form of an obstacle-free LINEAR step; a zero step does nothing. */
  function LinearStep(lo: Vec3, hi: Vec3, p: Vec3, v: Vec3, dt: real): (r: (Vec3, Vec3))
    requires lo.x < hi.x && lo.y < hi.y
  {
    if dt == 0.0 then (p, v) else
      (Vec3(FoldedPosition(lo.x, hi.x, p.x, v.x, dt), FoldedPosition(lo.y, hi.y, p.y, v.y, dt), p.z),
       Vec3(FoldedVelocity(lo.x, hi.x, p.x, v.x, dt), FoldedVelocity(lo.y, hi.y, p.y, v.y, dt), v.z))
  }

  function WallContacts(lo: Vec3, hi: Vec3, p: Vec3, v: Vec3, dt: real): int
    requires lo.x < hi.x && lo.y < hi.y
  {
    Contacts(lo.x, hi.x, p.x, v.x, dt) + Contacts(lo.y, hi.y, p.y, v.y, dt)
  }

  lemma ContactsGrow(lo: Vec3, hi: Vec3, p: Vec3, v: Vec3, a: real, b: real)
    requires lo.x < hi.x && lo.y < hi.y && InBounds(lo, hi, p) && 0.0 <= a <= b
    ensures WallContacts(lo, hi, p, v, a) <= WallContacts(lo, hi, p, v, b)
  {
    FoldComposes(lo.x, hi.x, p.x, v.x, a, b - a);
    FoldComposes(lo.y, hi.y, p.y, v.y, a, b - a);
    FoldedStateSettled(lo.x, hi.x, FoldedPosition(lo.x, hi.x, p.x, v.x, a), FoldedVelocity(lo.x, hi.x, p.x, v.x, a), b - a);
    FoldedStateSettled(lo.y, hi.y, FoldedPosition(lo.y, hi.y, p.y, v.y, a), FoldedVelocity(lo.y, hi.y, p.y, v.y, a), b - a);
  }

  /** `step(a); step(b)` ends where `step(a + b)` ends, and never leaves the world. */
  lemma LinearStepsCompose(lo: Vec3, hi: Vec3, p: Vec3, v: Vec3, a: real, b: real)
    requires lo.x < hi.x && lo.y < hi.y && InBounds(lo, hi, p) && a >= 0.0 && b >= 0.0
    ensures var mid := LinearStep(lo, hi, p, v, a);
      && InBounds(lo, hi, mid.0) && SameSpeeds(mid.1, v)
      && LinearStep(lo, hi, mid.0, mid.1, b) == LinearStep(lo, hi, p, v, a + b)
  {
    FoldComposes(lo.x, hi.x, p.x, v.x, a, b);
    FoldComposes(lo.y, hi.y, p.y, v.y, a, b);
  }

  const COLLISION_BUDGET := 256

  /** An exact flight of dt seconds with `remaining` of them to go, after this many events at least. */
  ghost predicate Underway(lo: Vec3, hi: Vec3, obstacles: seq<Box>, path: seq<Leg>, p0: Vec3, v0: Vec3, dt: real,
                           remaining: real, p: Vec3, v: Vec3, n0: nat, n1: nat, events: nat)
  {
    && 0.0 <= remaining <= dt
    && Flight(lo, hi, obstacles, path, p0, v0, dt - remaining, p, v, n0, n1)
    && Collisions(lo, hi, obstacles, path) == events
    && (obstacles == [] ==> (path == [] || BothSettled(lo, hi, p, v)) && n0 + n1 >= events)
  }

  lemma UnderwayStart(lo: Vec3, hi: Vec3, obstacles: seq<Box>, p: Vec3, v: Vec3, dt: real)
    requires lo.x < hi.x && lo.y < hi.y && InBounds(lo, hi, p) && Free(obstacles, p) && v.z == 0.0 && dt >= 0.0
    ensures Underway(lo, hi, obstacles, [], p, v, dt, dt, p, v, 0, 0, 0)
  {
    NothingTravelled(lo.x, hi.x, p.x, v.x);
    NothingTravelled(lo.y, hi.y, p.y, v.y);
  }

  lemma UnderwayNext(lo: Vec3, hi: Vec3, obstacles: seq<Box>, path: seq<Leg>, p0: Vec3, v0: Vec3, dt: real,
                     remaining: real, p: Vec3, v: Vec3, n0: nat, n1: nat, events: nat, h: real, axes: set<nat>)
    requires Underway(lo, hi, obstacles, path, p0, v0, dt, remaining, p, v, n0, n1, events)
    requires 0.0 <= h <= remaining && axes <= {0, 1} && ExactEvent(lo, hi, obstacles, p, v, h, axes)
    ensures Underway(lo, hi, obstacles, path + [Leg(p, v, h)], p0, v0, dt, remaining - h, p.Along(v, h), Reflected(v, axes),
                     n0 + Hits(axes, 0), n1 + Hits(axes, 1), if axes == {} then events else events + 1)
  {
    FlightExtended(lo, hi, obstacles, path, p0, v0, dt - remaining, p, v, n0, n1, h, axes);
    assert obstacles[..|obstacles|] == obstacles;
    CollisionsExtended(lo, hi, obstacles, path, Leg(p, v, h));
  }

  lemma FlightClosed(lo: Vec3, hi: Vec3, p0: Vec3, v0: Vec3, dt: real, left: real, p: Vec3, v: Vec3, n0: nat, n1: nat,
                     ok: bool)
    requires Bounced(lo, hi, p0, v0, dt - left, p, v, n0, n1) && BothSettled(lo, hi, p, v)
    requires InBounds(lo, hi, p0) && 0.0 <= left <= dt && dt > 0.0 && p.z == p0.z && v.z == v0.z
    requires if ok then left == 0.0 else n0 + n1 > COLLISION_BUDGET
    ensures ok ==> (p, v) == LinearStep(lo, hi, p0, v0, dt)
    ensures !ok ==> WallContacts(lo, hi, p0, v0, dt) > COLLISION_BUDGET
  {
    ClosedForm(lo.x, hi.x, p0.x, v0.x, dt - left, p.x, v.x, n0);
    ClosedForm(lo.y, hi.y, p0.y, v0.y, dt - left, p.y, v.y, n1);
    ContactsGrow(lo, hi, p0, v0, dt - left, dt);
  }

  /** At this speed the target crosses the world at most 127 times in time t. */
  predicate Roomy(lo: Vec3, hi: Vec3, speed: real, t: real) {
    Product(speed, t) <= Multiple(127, hi.x - lo.x) && Product(speed, t) <= Multiple(127, hi.y - lo.y)
  }

  lemma AxisSpeed(v: Vec3, speed: real)
    requires speed >= 0.0 && v.z == 0.0 && Squared(v) == Product(speed, speed)
    ensures AbsReal(v.x) <= speed && AbsReal(v.y) <= speed
  {
    if AbsReal(v.x) > speed {
      LargerSquare(v.x, v.y, speed);
    }
    if AbsReal(v.y) > speed {
      LargerSquare(v.y, v.x, speed);
    }
  }

  lemma LargerSquare(a: real, b: real, c: real)
    requires AbsReal(a) > c >= 0.0
    ensures Product(a, a) + Product(b, b) > Product(c, c)
  {
    var x := AbsReal(a);
    assert Product(a, a) == Product(x, x);
    assert Product(b, b) >= 0.0;
    ProductOrder(c, x, x);
    if c > 0.0 {
      ProductOrder(c, x, c);
      assert Product(c, x) == Product(x, c);
    }
  }

  lemma AxisContacts(lo: real, hi: real, p: real, v: real, t: real, speed: real, limit: real)
    requires lo < hi && lo <= p <= hi && AbsReal(v) <= speed && 0.0 <= t <= limit
    requires Product(speed, limit) <= Multiple(127, hi - lo)
    ensures Contacts(lo, hi, p, v, t) <= 128
  {
    if v != 0.0 {
      var width, total := hi - lo, Phase(lo, hi, p, v) + Product(AbsReal(v), t);
      assert Product(AbsReal(v), t) <= Product(speed, limit) by {
        ProductGrows(AbsReal(v), speed, t, limit);
      }
      MultipleNext(127, width);
      if Contacts(lo, hi, p, v, t) > 128 {
        MultipleOrder(128, Widths(total, width), width);
      }
    }
  }

  lemma ProductGrows(a: real, b: real, s: real, t: real)
    requires 0.0 <= a <= b && 0.0 <= s <= t
    ensures Product(a, s) <= Product(b, t)
  {
    assert Product(b, t) - Product(a, s) == Product(b - a, t) + Product(a, t - s);
    ProductSign(b - a, t);
    ProductSign(a, t - s);
  }

  /** In a roomy world the walls alone cannot use up the budget. */
  lemma FewContacts(lo: Vec3, hi: Vec3, p: Vec3, v: Vec3, t: real, speed: real, limit: real)
    requires lo.x < hi.x && lo.y < hi.y && InBounds(lo, hi, p) && 0.0 <= t <= limit
    requires speed >= 0.0 && v.z == 0.0 && Squared(v) == Product(speed, speed) && Roomy(lo, hi, speed, limit)
    ensures WallContacts(lo, hi, p, v, t) <= COLLISION_BUDGET
  {
    AxisSpeed(v, speed);
    AxisContacts(lo.x, hi.x, p.x, v.x, t, speed, limit);
    AxisContacts(lo.y, hi.y, p.y, v.y, t, speed, limit);
  }

  /** The final clip of `_advance`; it moves nothing that is in bounds. */
  function Clamped(lo: Vec3, hi: Vec3, p: Vec3): (q: Vec3)
    requires lo.x <= hi.x && lo.y <= hi.y && lo.z <= hi.z
    ensures InBounds(lo, hi, q)
    ensures InBounds(lo, hi, p) ==> q == p
  {
    Vec3(Clip(p.x, lo.x, hi.x), Clip(p.y, lo.y, hi.y), Clip(p.z, lo.z, hi.z))
  }

  /** A flight is finished while the contacts are within the budget, and given up at the first one beyond. */
  predicate InBudget(contacts: nat, ok: bool) {
    if ok then contacts <= COLLISION_BUDGET else contacts == COLLISION_BUDGET + 1
  }

  // ------------------------------------------------------- the random walk

  /** What is flown between two turns, from one clock time, position and velocity to a position and velocity. */
  datatype Piece = Piece(start: real, at: Vec3, from: Vec3, path: seq<Leg>, stop: Vec3, to: Vec3)

  /** The piece is gap-free and flown as a billiard; without obstacles it is the closed form. */
  ghost predicate Flown(lo: Vec3, hi: Vec3, obstacles: seq<Box>, f: Piece)
    requires lo.x < hi.x && lo.y < hi.y
  {
    && Joined(f.path, f.at, f.stop) && Billiard(lo, hi, obstacles, f.path, f.from, f.to)
    && (obstacles == [] ==> (f.stop, f.to) == LinearStep(lo, hi, f.at, f.from, Elapsed(f.path)))
  }

  /**
   The pieces follow one another without a gap in time or space, each flown as
   `Flown` says; each later one starts at the next turn of the clock, with the
   heading sampled for it.
   */
  ghost predicate Wanders(lo: Vec3, hi: Vec3, obstacles: seq<Box>, headings: nat -> Vec3, interval: real, first: nat,
                          pieces: seq<Piece>)
    requires lo.x < hi.x && lo.y < hi.y
  {
    |pieces| > 0 &&
    var n := |pieces| - 1;
    && Flown(lo, hi, obstacles, pieces[n])
    && (n > 0 ==>
          && Wanders(lo, hi, obstacles, headings, interval, first, pieces[..n])
          && pieces[n].from == headings(first + n)
          && pieces[n].start == Multiple(first + n, interval) == pieces[n - 1].start + Elapsed(pieces[n - 1].path)
          && pieces[n].at == pieces[n - 1].stop)
  }

  function LegsOf(pieces: seq<Piece>): seq<Leg> {
    if pieces == [] then [] else LegsOf(pieces[..|pieces| - 1]) + pieces[|pieces| - 1].path
  }

  /** The walk from this state to that one, turning at each interval that passes. */
  ghost predicate Walked(lo: Vec3, hi: Vec3, obstacles: seq<Box>, headings: nat -> Vec3, interval: real,
                         pieces: seq<Piece>, path: seq<Leg>,
                         t0: real, p0: Vec3, v0: Vec3, k0: nat, t: real, p: Vec3, v: Vec3, k: nat)
    requires lo.x < hi.x && lo.y < hi.y
  {
    && |pieces| == k - k0 + 1 && Wanders(lo, hi, obstacles, headings, interval, k0, pieces) && path == LegsOf(pieces)
    && pieces[0].start == t0 && pieces[0].at == p0 && pieces[0].from == v0
    && var last := pieces[|pieces| - 1]; last.start + Elapsed(last.path) == t && last.stop == p && last.to == v
  }

  lemma WalkStarted(lo: Vec3, hi: Vec3, obstacles: seq<Box>, headings: nat -> Vec3, interval: real,
                    t: real, p: Vec3, v: Vec3, k: nat)
    requires lo.x < hi.x && lo.y < hi.y
    ensures Walked(lo, hi, obstacles, headings, interval, [Piece(t, p, v, [], p, v)], [], t, p, v, k, t, p, v, k)
  {
  }

  /** Flying a piece after a walk that has just turned, or not moved yet. */
  lemma WalkFlown(lo: Vec3, hi: Vec3, obstacles: seq<Box>, headings: nat -> Vec3, interval: real,
                  pieces: seq<Piece>, path: seq<Leg>, t0: real, p0: Vec3, v0: Vec3, k0: nat,
                  t: real, p: Vec3, v: Vec3, k: nat, f: Piece)
    requires lo.x < hi.x && lo.y < hi.y
    requires Walked(lo, hi, obstacles, headings, interval, pieces, path, t0, p0, v0, k0, t, p, v, k)
    requires pieces[|pieces| - 1].path == [] && Flown(lo, hi, obstacles, f)
    requires f.start == t && f.at == p && f.from == v
    ensures Walked(lo, hi, obstacles, headings, interval, pieces[..|pieces| - 1] + [f], path + f.path,
                   t0, p0, v0, k0, t + Elapsed(f.path), f.stop, f.to, k)
  {
    var n := |pieces| - 1;
    var more := pieces[..n] + [f];
    assert more[..n] == pieces[..n];
    assert path == LegsOf(pieces[..n]);
  }

  /** Turning at the next multiple of the interval. */
  lemma WalkTurned(lo: Vec3, hi: Vec3, obstacles: seq<Box>, headings: nat -> Vec3, interval: real,
                   pieces: seq<Piece>, path: seq<Leg>, t0: real, p0: Vec3, v0: Vec3, k0: nat,
                   t: real, p: Vec3, v: Vec3, k: nat)
    requires lo.x < hi.x && lo.y < hi.y
    requires Walked(lo, hi, obstacles, headings, interval, pieces, path, t0, p0, v0, k0, t, p, v, k)
    requires t == Multiple(k + 1, interval)
    ensures var w := headings(k + 1);
      Walked(lo, hi, obstacles, headings, interval, pieces + [Piece(t, p, w, [], p, w)], path,
             t0, p0, v0, k0, t, p, w, k + 1)
  {
    var w := headings(k + 1);
    var more := pieces + [Piece(t, p, w, [], p, w)];
    assert more[..|pieces|] == pieces && path + [] == path;
  }

  /** The event loop, with any slack: which events it meets, and that only the budget ends it early. */
  ghost predicate EventLoop(w: Room, f: Piece, duration: real, ok: bool)
    requires w.Valid()
  {
    if w.exact then
      && Billiard(w.lo, w.hi, w.obstacles, f.path, f.from, f.to)
      && PathSafe(w.lo, w.hi, f.path, w.obstacles) && InBudget(Collisions(w.lo, w.hi, w.obstacles, f.path), ok)
    else
      exists endings: seq<Ending> ::
        Looped(w, f.path, endings, duration, f.to) && InBudget(EventsIn(endings), ok)
  }

  /**
   One advance, with any slack: a traced flight at most the tolerance short of
   its time and clipped to the world, or one given up beyond the budget.
   */
  ghost predicate Flew(w: Room, f: Piece, duration: real, ok: bool)
    requires w.Valid()
  {
    var end := Arrival(f.path, f.at);
    && Traced(f.path, f.at, f.from, end) && f.stop == (if ok then Clamped(w.lo, w.hi, end) else end)
    && (ok ==> Elapsed(f.path) >= duration - w.slack.tolerance)
    && EventLoop(w, f, duration, ok)
  }

  /** Flown for one segment, unless that is too short to be flown. */
  ghost predicate Strode(w: Room, index: nat, end: real, f: Piece, until: real)
    requires w.Valid()
  {
    var segment := w.Segment(index, f.start, end);
    if segment > w.turnSlack then until == f.start + segment && Flew(w, f, segment, true)
    else f == Piece(until, f.at, f.from, [], f.at, f.from)
  }

  /** Given up in a segment long enough to be flown. */
  ghost predicate Abandoned(w: Room, index: nat, end: real, f: Piece)
    requires w.Valid()
  {
    var segment := w.Segment(index, f.start, end); segment > w.turnSlack && Flew(w, f, segment, false)
  }

  /** The last piece starts from this state, or at a turn with its heading. */
  ghost predicate Resumed(w: Room, end: real, headings: nat -> Vec3, pieces: seq<Piece>,
                          t0: real, p0: Vec3, v0: Vec3, k0: nat)
    requires w.Valid() && pieces != []
    decreases |pieces|, 0
  {
    var init, f := pieces[..|pieces| - 1], pieces[|pieces| - 1];
    if init == [] then f.start == t0 && f.at == p0 && f.from == v0
    else Turning(w, end, headings, init, t0, p0, v0, k0, f.start, f.at) && f.from == headings(k0 + |init|)
  }

  /** Flown up to a turn. */
  ghost predicate Turning(w: Room, end: real, headings: nat -> Vec3, pieces: seq<Piece>,
                          t0: real, p0: Vec3, v0: Vec3, k0: nat, t: real, p: Vec3)
    requires w.Valid() && pieces != []
    decreases |pieces|, 1
  {
    var k, f := k0 + |pieces| - 1, pieces[|pieces| - 1];
    && f.stop == p && Strode(w, k, end, f, t) && w.TurnIsDue(k, f.start, end)
    && Resumed(w, end, headings, pieces, t0, p0, v0, k0)
  }

  /**
   With any slack: piece by piece from this start to that end, each flown from
   where the one before stopped, the later ones from their turn; the last one is
   only begun, or ends with no turn due.
   */
  ghost predicate Strolled(w: Room, end: real, headings: nat -> Vec3, pieces: seq<Piece>,
                           t0: real, p0: Vec3, v0: Vec3, k0: nat, t: real, p: Vec3, v: Vec3)
    requires w.Valid()
  {
    pieces != [] &&
    var k, f := k0 + |pieces| - 1, pieces[|pieces| - 1];
    && f.stop == p && f.to == v && Resumed(w, end, headings, pieces, t0, p0, v0, k0)
    && (f == Piece(t, p, v, [], p, v) || (Strode(w, k, end, f, t) && !w.TurnIsDue(k, f.start, end)))
  }

  /** The walk ended in a segment that was given up. */
  ghost predicate GaveUp(w: Room, end: real, headings: nat -> Vec3, pieces: seq<Piece>,
                         t0: real, p0: Vec3, v0: Vec3, k0: nat, t: real, p: Vec3, v: Vec3)
    requires w.Valid()
  {
    pieces != [] &&
    var k, f := k0 + |pieces| - 1, pieces[|pieces| - 1];
    && f.start == t && f.stop == p && f.to == v && Resumed(w, end, headings, pieces, t0, p0, v0, k0)
    && Abandoned(w, k, end, f)
  }

  /** One more piece, flown where the last one had only been begun. */
  lemma StrolledOn(w: Room, end: real, headings: nat -> Vec3, pieces: seq<Piece>,
                   t0: real, p0: Vec3, v0: Vec3, k0: nat, t: real, p: Vec3, v: Vec3, f: Piece, until: real)
    requires w.Valid() && Strolled(w, end, headings, pieces, t0, p0, v0, k0, t, p, v)
    requires pieces[|pieces| - 1] == Piece(t, p, v, [], p, v) && f.start == t && f.at == p && f.from == v
    ensures var flown, k := pieces[..|pieces| - 1] + [f], k0 + |pieces| - 1;
      && (Strode(w, k, end, f, until) && !w.TurnIsDue(k, t, end) ==>
            Strolled(w, end, headings, flown, t0, p0, v0, k0, until, f.stop, f.to))
      && (Strode(w, k, end, f, until) && w.TurnIsDue(k, t, end) ==>
            Turning(w, end, headings, flown, t0, p0, v0, k0, until, f.stop))
  {
    var flown := pieces[..|pieces| - 1] + [f];
    assert flown[..|flown| - 1] == pieces[..|pieces| - 1];
    assert Resumed(w, end, headings, flown, t0, p0, v0, k0);
  }

  lemma StrolledInto(w: Room, end: real, headings: nat -> Vec3, pieces: seq<Piece>,
                     t0: real, p0: Vec3, v0: Vec3, k0: nat, t: real, p: Vec3, v: Vec3, k: nat, f: Piece)
    requires w.Valid() && Strolled(w, end, headings, pieces, t0, p0, v0, k0, t, p, v) && |pieces| == k - k0 + 1
    requires pieces[|pieces| - 1] == Piece(t, p, v, [], p, v) && f.start == t && f.at == p && f.from == v
    requires Abandoned(w, k, end, f)
    ensures GaveUp(w, end, headings, WalkedOn(headings, pieces, f, t, false, k), t0, p0, v0, k0, t, f.stop, f.to)
  {
    var flown := pieces[..|pieces| - 1] + [f];
    assert flown[..|flown| - 1] == pieces[..|pieces| - 1];
  }

  lemma StrolledTurn(w: Room, end: real, headings: nat -> Vec3, pieces: seq<Piece>,
                     t0: real, p0: Vec3, v0: Vec3, k0: nat, t: real, p: Vec3)
    requires w.Valid() && pieces != [] && Turning(w, end, headings, pieces, t0, p0, v0, k0, t, p)
    ensures var v := headings(k0 + |pieces|);
      Strolled(w, end, headings, pieces + [Piece(t, p, v, [], p, v)], t0, p0, v0, k0, t, p, v)
  {
    var v := headings(k0 + |pieces|);
    var more := pieces + [Piece(t, p, v, [], p, v)];
    assert more[..|more| - 1] == pieces;
  }

  /** So far on a walk: the heading in force, and without slack a safe walk from its start. */
  ghost predicate OnWalk(w: Room, end: real, headings: nat -> Vec3, path: seq<Leg>, pieces: seq<Piece>,
                         t0: real, p0: Vec3, v0: Vec3, k0: nat, t: real, p: Vec3, v: Vec3, k: nat)
    requires w.Valid() && w.lo.x < w.hi.x && w.lo.y < w.hi.y
  {
    && k >= k0 && SameSpeeds(v, if k == k0 then v0 else headings(k)) && |pieces| == k - k0 + 1
    && Strolled(w, end, headings, pieces, t0, p0, v0, k0, t, p, v)
    && (w.exact ==>
          && SafeTrace(w.lo, w.hi, path, p0, p, t - t0, w.obstacles)
          && Walked(w.lo, w.hi, w.obstacles, headings, w.interval, pieces, path, t0, p0, v0, k0, t, p, v, k))
  }

  /**
   One segment from turn index k: the piece f, flown until then, and the turn
   exactly if it is due, which sets the velocity v and the index to k1.
   */
  ghost predicate Segmented(w: Room, end: real, headings: nat -> Vec3, f: Piece, k: nat, until: real, v: Vec3, k1: nat)
    requires w.Valid() && w.lo.x < w.hi.x && w.lo.y < w.hi.y
  {
    && Strode(w, k, end, f, until) && SameSpeeds(f.to, f.from)
    && (if w.TurnIsDue(k, f.start, end) then k1 == k + 1 && v == headings(k1) else k1 == k && v == f.to)
    && (w.exact ==>
          && SafeTrace(w.lo, w.hi, f.path, f.at, f.stop, until - f.start, w.obstacles)
          && Flown(w.lo, w.hi, w.obstacles, f) && (k1 != k ==> until == Multiple(k1, w.interval)))
  }

  /** After one more piece, and the turn that ends it if there is one. */
  function WalkedOn(headings: nat -> Vec3, pieces: seq<Piece>, f: Piece, until: real, turned: bool, k: nat): seq<Piece>
    requires pieces != []
  {
    var flown := pieces[..|pieces| - 1] + [f];
    if turned then flown + [Piece(until, f.stop, headings(k + 1), [], f.stop, headings(k + 1))] else flown
  }

  lemma WalkGoesOn(w: Room, end: real, headings: nat -> Vec3, path: seq<Leg>, pieces: seq<Piece>,
                   t0: real, p0: Vec3, v0: Vec3, k0: nat, t: real, p: Vec3, v: Vec3, k: nat,
                   f: Piece, until: real, v1: Vec3, k1: nat)
    requires w.Valid() && w.lo.x < w.hi.x && w.lo.y < w.hi.y
    requires OnWalk(w, end, headings, path, pieces, t0, p0, v0, k0, t, p, v, k)
    requires pieces[|pieces| - 1] == Piece(t, p, v, [], p, v) && f.start == t && f.at == p && f.from == v
    requires Segmented(w, end, headings, f, k, until, v1, k1)
    ensures OnWalk(w, end, headings, path + f.path, WalkedOn(headings, pieces, f, until, k1 != k, k), t0, p0, v0, k0,
                   until, f.stop, v1, k1)
    ensures k1 != k ==>
      var more := WalkedOn(headings, pieces, f, until, true, k); more[|more| - 1] == Piece(until, f.stop, v1, [], f.stop, v1)
  {
    var turned := k1 != k;
    var flown := pieces[..|pieces| - 1] + [f];
    StrolledOn(w, end, headings, pieces, t0, p0, v0, k0, t, p, v, f, until);
    if turned {
      StrolledTurn(w, end, headings, flown, t0, p0, v0, k0, until, f.stop);
    }
    if w.exact {
      TracesJoined(w.lo, w.hi, path, f.path, p0, p, f.stop, t - t0, until - t, w.obstacles);
      WalkFlown(w.lo, w.hi, w.obstacles, headings, w.interval, pieces, path, t0, p0, v0, k0, t, p, v, k, f);
      if turned {
        WalkTurned(w.lo, w.hi, w.obstacles, headings, w.interval, flown, path + f.path, t0, p0, v0, k0, until, f.stop, f.to,
                   k);
      }
    }
  }

  class MovingTarget {
    const lo: Vec3
    const hi: Vec3
    const obstacles: seq<Box>          // already grown by the target's half-extent
    const initialPosition: Vec3
    const initialHeading: Vec3         // velocity along the configured heading
    const speed: real
    const turnInterval: real
    const slack: Slack                 // 1e-10 and 1e-15 in the source
    const turnSlack: real              // 1e-12 in the source
    var mode: MotionMode
    var position: Vec3
    var velocity: Vec3
    var time: real
    var turnIndex: nat

    /** What construction fixes. */
    ghost predicate Configured() {
      && lo.x < hi.x && lo.y < hi.y && lo.z <= hi.z
      && slack.Valid() && turnSlack >= 0.0 && turnInterval > 0.0 && speed >= 0.0
      && Exact() == (slack.Exact() && turnSlack == 0.0)
      && InBounds(lo, hi, initialPosition) && Free(obstacles, initialPosition)
      && IsHeading(initialHeading)
    }

    predicate Exact() { slack.Exact() && turnSlack == 0.0 }

    function Surroundings(): Room { Room(lo, hi, obstacles, slack, Exact(), turnSlack, turnInterval) }

    predicate IsHeading(v: Vec3) { v.z == 0.0 && Squared(v) == Product(speed, speed) }

    /** The turn clock never runs behind or ahead of the time. */
    ghost predicate TurnClockExact()
      reads this
      requires turnInterval > 0.0
    {
      turnIndex == Widths(time, turnInterval)
    }

    /** Between calls: inside the world, outside every obstacle, at the configured speed. */
    ghost predicate Valid()
      reads this
    {
      && Configured()
      && InBounds(lo, hi, position)
      && velocity.z == 0.0
      && (Exact() ==> Free(obstacles, position))
      && (Exact() && mode != LINEAR ==> TurnClockExact())
      && (if mode == STATIC || speed == 0.0 then velocity == Vec3(0.0, 0.0, 0.0) else IsHeading(velocity))
    }

    constructor (mode: MotionMode, position: Vec3, lo: Vec3, hi: Vec3, speed: real, turnInterval: real,
                 heading: Vec3, boxes: seq<Box>, halfExtent: Vec3, slack: Slack, turnSlack: real)
      requires lo.x < hi.x && lo.y < hi.y && lo.z <= hi.z && InBounds(lo, hi, position)
      requires speed >= 0.0 && turnInterval > 0.0 && slack.Valid() && turnSlack >= 0.0
      requires heading.z == 0.0 && Squared(heading) == Product(speed, speed)
      requires halfExtent.x >= 0.0 && halfExtent.y >= 0.0 && halfExtent.z >= 0.0
      requires forall i | 0 <= i < |boxes| :: !StrictlyInside(Expanded(boxes[i], halfExtent).value, position)
      ensures Valid()
      ensures this.lo == lo && this.hi == hi && this.speed == speed && this.turnInterval == turnInterval
      ensures this.slack == slack && this.turnSlack == turnSlack && initialPosition == position
      ensures |obstacles| == |boxes|
      ensures forall i | 0 <= i < |boxes| :: obstacles[i] == Expanded(boxes[i], halfExtent).value
      ensures this.mode == mode && this.position == position && time == 0.0 && turnIndex == 0
      ensures velocity == if mode == STATIC || speed == 0.0 then Vec3(0.0, 0.0, 0.0) else heading
    {
      this.mode, this.position, this.lo, this.hi := mode, position, lo, hi;
      this.speed, this.turnInterval, this.slack, this.turnSlack := speed, turnInterval, slack, turnSlack;
      initialPosition, initialHeading := position, heading;
      obstacles := seq(|boxes|, i requires 0 <= i < |boxes| => Expanded(boxes[i], halfExtent).value);
      velocity := if mode == STATIC || speed == 0.0 then Vec3(0.0, 0.0, 0.0) else heading;
      time, turnIndex := 0.0, 0;
    }

    /** `reset`: refused, with nothing changed, for a position outside the world or inside an obstacle. */
    method Reset(candidate: Option<Vec3>, heading: Option<Vec3>, newMode: Option<MotionMode>) returns (ok: bool)
      requires Valid() && (heading.Some? ==> IsHeading(heading.value))
      modifies this
      ensures Valid()
      ensures var p := if candidate.Some? then candidate.value else initialPosition;
        ok <==> InBounds(lo, hi, p) && Free(obstacles, p)
      ensures !ok ==> position == old(position) && velocity == old(velocity) && time == old(time)
                      && turnIndex == old(turnIndex) && mode == old(mode)
      ensures ok ==> position == (if candidate.Some? then candidate.value else initialPosition)
                     && mode == (if newMode.Some? then newMode.value else old(mode))
                     && time == 0.0 && turnIndex == 0
                     && (mode != STATIC && speed != 0.0 ==>
                           velocity == if heading.Some? then heading.value else initialHeading)
    {
      var candidateMode := if newMode.Some? then newMode.value else mode;
      var p := if candidate.Some? then candidate.value else initialPosition;
      if !InBounds(lo, hi, p) || !Free(obstacles, p) {
        return false;
      }
      var candidateHeading := if heading.Some? then heading.value else initialHeading;
      mode, position, time, turnIndex := candidateMode, p, 0.0, 0;
      velocity := if mode == STATIC || speed == 0.0 then Vec3(0.0, 0.0, 0.0) else candidateHeading;
      return true;
    }

    /** The wall scan of one `_advance` iteration. */
    method ScanWalls(remaining: real) returns (found: bool, hitTime: real, hitAxes: set<nat>)
      requires Configured() && remaining > slack.tolerance
      requires Exact() ==> InBounds(lo, hi, position)
      ensures hitTime >= 0.0 && hitAxes <= {0, 1}
      ensures found <==> hitAxes != {}
      ensures !found ==> hitTime == remaining
      ensures hitTime <= remaining + slack.tolerance
      ensures Found(found, hitTime, hitAxes) == WallsFound(lo, hi, position, velocity, slack, remaining, 2)
      ensures Exact() ==> hitTime <= remaining && WallsScanned(lo, hi, position, velocity, 2, hitTime, hitAxes)
      ensures AbsReal(velocity.x) > slack.still && AbsReal(velocity.y) <= slack.still ==>
        forall at | 0.0 <= at <= remaining && AtWall(lo, hi, position, velocity, 0, at) :: found && hitTime == at
    {
      found, hitTime, hitAxes := false, remaining, {};
      for axis := 0 to 2
        invariant hitTime >= 0.0 && hitAxes <= {0, 1}
        invariant found <==> hitAxes != {}
        invariant !found ==> hitTime == remaining
        invariant hitTime <= remaining + slack.tolerance
        invariant Found(found, hitTime, hitAxes) == WallsFound(lo, hi, position, velocity, slack, remaining, axis)
        invariant Exact() ==> WallsScanned(lo, hi, position, velocity, axis, hitTime, hitAxes)
        invariant axis == 0 ==> !found
        invariant axis > 0 && AbsReal(velocity.x) > slack.still && AbsReal(velocity.y) <= slack.still ==>
          forall at | 0.0 <= at <= remaining && AtWall(lo, hi, position, velocity, 0, at) :: found && hitTime == at
      {
        var v := velocity.At(axis);
        if AbsReal(v) <= slack.still {
          if Exact() {
            StillAxis(position.At(axis), v);
          }
        } else {
          var wall := if v > 0.0 then hi.At(axis) else lo.At(axis);
          var candidate := (wall - position.At(axis)) / v;
          if axis == 0 {
            WallArrival(lo, hi, position, velocity, 0, candidate);
          }
          if Exact() {
            WallTime(lo, hi, position, velocity, axis, candidate);
            if 0.0 <= candidate < hitTime {
              WallsSooner(lo, hi, position, velocity, axis, hitTime, hitAxes, candidate);
            }
          }
          if -slack.tolerance <= candidate <= remaining + slack.tolerance {
            candidate := MaxReal(0.0, candidate);
            if !found || candidate < hitTime - slack.tolerance {
              found, hitTime, hitAxes := true, candidate, {axis};
            } else if AbsReal(candidate - hitTime) <= slack.tolerance {
              hitAxes := hitAxes + {axis};
            }
          }
        }
      }
    }

    /** The swept-point test of one obstacle. */
    method HitOn(b: Box, remaining: real) returns (hit: Option<Hit>)
      requires slack.Valid()
      ensures hit.Some? ==> hit.value.axes != {}
      ensures HitLaw(b, position, velocity, slack, remaining, hit)
    {
      hit := FirstAabbHit(b, position, velocity, remaining, slack);
    }

    /**
     The wall scan and the obstacle scan of one `_advance` iteration: the
     first event within `remaining`, and the axes to reflect.
     */
    method NextEvent(remaining: real) returns (found: bool, hitTime: real, hitAxes: set<nat>)
      requires Configured() && remaining > slack.tolerance
      requires Exact() ==> InBounds(lo, hi, position) && velocity.z == 0.0 && Free(obstacles, position)
      ensures hitTime >= 0.0 && hitAxes <= {0, 1}
      ensures found <==> hitAxes != {}
      ensures !found ==> hitTime == remaining
      ensures Exact() ==> hitTime <= remaining && ExactEvent(lo, hi, obstacles, position, velocity, hitTime, hitAxes)
      ensures SlackScan(lo, hi, obstacles, position, velocity, slack, |obstacles|, remaining, found, hitTime)
      ensures velocity.z == 0.0 ==>
        FoundAmong(lo, hi, obstacles, position, velocity, slack, remaining, |obstacles|, Found(found, hitTime, hitAxes))
    {
      found, hitTime, hitAxes := ScanWalls(remaining);
      ScannedWalls(lo, hi, obstacles, position, velocity, slack, Exact(), remaining, Found(found, hitTime, hitAxes));
      for i := 0 to |obstacles|
        invariant hitTime >= 0.0 && hitAxes <= {0, 1} && (found <==> hitAxes != {}) && (!found ==> hitTime == remaining)
        invariant
          ScannedTo(lo, hi, obstacles, position, velocity, slack, Exact(), i, remaining, Found(found, hitTime, hitAxes))
      {
        var hit := HitOn(obstacles[i], remaining);
        ghost var before := Found(found, hitTime, hitAxes);
        if hit.Some? {
          var candidate := hit.value.time;
          if !found || candidate < hitTime - slack.tolerance {
            found, hitTime, hitAxes := true, candidate, hit.value.axes;
          } else if AbsReal(candidate - hitTime) <= slack.tolerance {
            hitAxes := hitAxes + hit.value.axes;
          }
        }
        ScannedNext(lo, hi, obstacles, position, velocity, slack, Exact(), i, remaining, before, hit,
                    Found(found, hitTime, hitAxes));
      }
    }

    /** Fly to the next event, or to the end, and reflect there. */
    method OneEvent(remaining: real) returns (found: bool, hitTime: real, hitAxes: set<nat>)
      requires Configured() && remaining > slack.tolerance
      requires Exact() ==> InBounds(lo, hi, position) && velocity.z == 0.0 && Free(obstacles, position)
      modifies `position, `velocity
      ensures hitAxes <= {0, 1} && (found <==> hitAxes != {})
      ensures hitTime >= 0.0 && (!found ==> hitTime == remaining)
      ensures position == old(position).Along(old(velocity), hitTime) && velocity == Reflected(old(velocity), hitAxes)
      ensures Exact() ==>
        hitTime <= remaining && ExactEvent(lo, hi, obstacles, old(position), old(velocity), hitTime, hitAxes)
      ensures SlackLeg(lo, hi, obstacles, old(position), old(velocity), slack, remaining, hitTime)
      ensures old(velocity).z == 0.0 ==>
        EventLeg(lo, hi, obstacles, slack, Leg(old(position), old(velocity), hitTime), remaining, velocity, found)
    {
      found, hitTime, hitAxes := NextEvent(remaining);
      if Gentle(velocity, slack) && Free(obstacles, position) {
        GentleLegShallow(obstacles, position, velocity, hitTime, slack);
      }
      position, velocity := position.Along(velocity, hitTime), Reflected(velocity, hitAxes);
    }

    /** A hop along the reflected direction after an immediate event; without slack it is no motion at all. */
    method Nudge(remaining: real) returns (rest: real)
      requires slack.Valid() && remaining > 0.0
      modifies `position
      ensures 0.0 <= rest <= remaining && remaining - rest == MinReal(remaining, slack.tolerance)
      ensures position == old(position).Along(velocity, remaining - rest)
      ensures Exact() ==> rest == remaining && position == old(position)
    {
      var nudge := MinReal(remaining, slack.tolerance);
      if Exact() {
        NoMotion(position, velocity);
      }
      position := position.Along(velocity, nudge);
      rest := remaining - nudge;
    }

    /** The event loop has come this far from that start. */
    ghost predicate Flying(log: Log, from: Vec3, first: Vec3, dt: real, remaining: real)
      requires Configured()
      reads `position, `velocity
    {
      InFlight(Surroundings(), log, from, first, dt, remaining, position, velocity)
    }

    /** One event is one more leg of the path. */
    method EventAlong(remaining: real, ghost log: Log, ghost from: Vec3, ghost first: Vec3, ghost dt: real)
      returns (found: bool, hitTime: real, ghost more: Log)
      requires Configured() && remaining > slack.tolerance && Flying(log, from, first, dt, remaining)
      requires !HopPending(Surroundings(), log, remaining)
      modifies `position, `velocity
      ensures hitTime >= 0.0 && (!found ==> hitTime == remaining)
      ensures Flying(more, from, first, dt, remaining - hitTime) && more.path != []
      ensures more.events == if found then log.events + 1 else log.events
      ensures HopPending(Surroundings(), more, remaining - hitTime) <==>
              !Exact() && found && hitTime <= slack.tolerance && remaining - hitTime > 0.0
    {
      ghost var p, v := position, velocity;
      var hitAxes;
      found, hitTime, hitAxes := OneEvent(remaining);
      more := log.With(Leg(p, v, hitTime), hitAxes);
      FlightGoesOn(Surroundings(), log, from, first, dt, remaining, p, v, hitTime, hitAxes);
    }

    /** The hop is a leg of the traced path, unless it is no motion. */
    method NudgeAlong(remaining: real, ghost log: Log, ghost from: Vec3, ghost first: Vec3, ghost dt: real)
      returns (rest: real, ghost more: Log)
      requires Configured() && remaining > 0.0 && Flying(log, from, first, dt, remaining)
      requires Exact() || HopPending(Surroundings(), log, remaining)
      modifies `position
      ensures Flying(more, from, first, dt, rest) && more.events == log.events
      ensures log.path != [] ==> more.path != []
      ensures !HopPending(Surroundings(), more, rest)
    {
      ghost var p := position;
      rest := Nudge(remaining);
      more := log;
      if !Exact() {
        more := log.(path := log.path + [Leg(p, velocity, remaining - rest)], endings := log.endings + [AtHop]);
        FlightHops(Surroundings(), log, from, first, dt, remaining, p, velocity);
      }
    }

    /**
     The event loop of `_advance`: fly to the next event, reflect, repeat.
     `ok` is false when the collision budget is exceeded and the source raises.
     The ghost log records the traced path and the contacts per axis.
     */
    method Integrate(dt: real) returns (ok: bool, ghost left: real, ghost log: Log)
      requires Valid() && dt >= 0.0
      modifies `position, `velocity
      ensures Flying(log, old(position), old(velocity), dt, left) && InBudget(log.events, ok)
      ensures ok ==> left <= slack.tolerance
      ensures Exact() ==> 0.0 <= left <= dt && (ok ==> left == 0.0)
      ensures dt > slack.tolerance ==> log.path != []
    {
      var remaining := dt;
      var collisions := 0;
      ok, log := true, Log([], [], 0, 0, 0);
      if Exact() {
        UnderwayStart(lo, hi, obstacles, position, velocity, dt);
      }
      while remaining > slack.tolerance
        invariant 0 <= collisions <= COLLISION_BUDGET && collisions == log.events
        invariant Flying(log, old(position), old(velocity), dt, remaining) && !HopPending(Surroundings(), log, remaining)
        invariant remaining == dt || log.path != []
        decreases COLLISION_BUDGET - collisions
      {
        var found, hitTime;
        found, hitTime, log := EventAlong(remaining, log, old(position), old(velocity), dt);
        remaining := remaining - hitTime;
        if !found {
          break;
        }
        collisions := collisions + 1;
        if collisions > COLLISION_BUDGET {
          left := remaining;
          return false, left, log;
        }
        if hitTime <= slack.tolerance && remaining > 0.0 {
          remaining, log := NudgeAlong(remaining, log, old(position), old(velocity), dt);
        }
      }
      left := remaining;
    }

    /**
     `_advance`.  With no slack the traced path is gap-free and never inside an
     obstacle, the final clip changes nothing, and without obstacles the motion
     is the triangle-wave fold.
     */
    method Advance(dt: real) returns (ok: bool, ghost path: seq<Leg>, ghost left: real)
      requires Valid() && dt >= 0.0
      modifies `position, `velocity
      ensures SameSpeeds(velocity, old(velocity)) && velocity.z == 0.0
      ensures Traced(path, old(position), old(velocity), Arrival(path, old(position)))
      ensures Elapsed(path) == dt - left && (ok ==> left <= slack.tolerance)
      ensures position == var end := Arrival(path, old(position)); if ok then Clamped(lo, hi, end) else end
      ensures ok || Exact() ==> Valid()
      ensures
        EventLoop(Surroundings(), Piece(old(time), old(position), old(velocity), path, position, velocity), dt, ok)
      ensures Exact() ==> 0.0 <= left <= dt && (ok ==> left == 0.0) && position.z == old(position.z)
      ensures Exact() ==> SafeTrace(lo, hi, path, old(position), position, dt - left, obstacles)
      ensures Exact() ==> Billiard(lo, hi, obstacles, path, old(velocity), velocity)
      ensures Exact() && obstacles == [] && dt > 0.0 && ok ==>
        (position, velocity) == LinearStep(lo, hi, old(position), old(velocity), dt)
      ensures Exact() && obstacles == [] && dt > 0.0 && !ok ==>
        WallContacts(lo, hi, old(position), old(velocity), dt) > COLLISION_BUDGET
    {
      ghost var log;
      ok, left, log := Integrate(dt);
      path := log.path;
      SameSpeedsSameNorm(velocity, old(velocity));
      if Exact() && obstacles == [] && dt > 0.0 {
        FlightClosed(lo, hi, old(position), old(velocity), dt, left, position, velocity, log.n0, log.n1, ok);
      }
      if ok {
        position := Clamped(lo, hi, position);
        velocity := Vec3(velocity.x, velocity.y, 0.0);
      }
    }

    /**
     `step`.  The random walk advances from turn boundary to turn boundary and
     takes the heading of each boundary it passes; `headings(k)` is the k-th
     sample of the seeded generator.
     */
    method Step(dt: real, headings: nat -> Vec3) returns (ok: bool, ghost path: seq<Leg>, ghost pieces: seq<Piece>)
      requires Valid() && dt >= 0.0 && forall k: nat :: IsHeading(headings(k))
      modifies `position, `velocity, `time, `turnIndex
      ensures ok ==> Valid()
      ensures mode == STATIC || speed == 0.0 || dt == 0.0 ==>
        ok && position == old(position) && velocity == old(velocity) && time == old(time) && turnIndex == old(turnIndex)
      ensures ok && mode == LINEAR ==> SameSpeeds(velocity, old(velocity)) && turnIndex == old(turnIndex)
      ensures mode == LINEAR && speed != 0.0 && dt > 0.0 ==>
        Flew(Surroundings(), Piece(old(time), old(position), old(velocity), path, position, velocity), dt, ok)
      ensures ok && mode == RANDOM_WALK && speed != 0.0 && dt > 0.0 ==>
        && old(time) + dt - turnSlack <= time <= old(time) + dt && |pieces| == turnIndex - old(turnIndex) + 1
        && Strolled(Surroundings(), old(time) + dt, headings, pieces, old(time), old(position), old(velocity),
                    old(turnIndex), time, position, velocity)
      ensures !ok && mode == RANDOM_WALK ==>
        && |pieces| == turnIndex - old(turnIndex) + 1
        && GaveUp(Surroundings(), old(time) + dt, headings, pieces, old(time), old(position), old(velocity),
                  old(turnIndex), time, position, velocity)
      ensures mode == LINEAR && speed != 0.0 ==> time == if ok then old(time) + dt else old(time)
      ensures ok && Exact() && mode != STATIC && speed != 0.0 ==>
        && time == old(time) + dt
        && SafeTrace(lo, hi, path, old(position), position, dt, obstacles)
        && Walked(lo, hi, obstacles, headings, turnInterval, pieces, path, old(time), old(position), old(velocity),
                  old(turnIndex), time, position, velocity, turnIndex)
      ensures ok && Exact() && speed != 0.0 && obstacles == [] && mode != STATIC && turnIndex == old(turnIndex) ==>
        (position, velocity) == LinearStep(lo, hi, old(position), old(velocity), dt)
      ensures Exact() && mode == LINEAR && speed != 0.0 && dt > 0.0 && obstacles == [] && !ok ==>
        WallContacts(lo, hi, old(position), old(velocity), dt) > COLLISION_BUDGET
      ensures Exact() && obstacles == [] && Roomy(lo, hi, speed, if mode == LINEAR then dt else turnInterval) ==> ok
      ensures ok && mode == RANDOM_WALK && turnIndex == old(turnIndex) ==> SameSpeeds(velocity, old(velocity))
      ensures ok && mode == RANDOM_WALK && turnIndex != old(turnIndex) ==>
        turnIndex > old(turnIndex) && SameSpeeds(velocity, headings(turnIndex))
    {
      ok, path, pieces := true, [], [Piece(time, position, velocity, [], position, velocity)];
      WalkStarted(lo, hi, obstacles, headings, turnInterval, time, position, velocity, turnIndex);
      if dt == 0.0 || mode == STATIC || speed == 0.0 {
        return;
      }
      if mode == LINEAR {
        ok, path := Straight(dt);
        pieces := [Piece(old(time), old(position), old(velocity), path, position, velocity)];
        return;
      }
      ok, path, pieces := Walk(dt, headings);
    }

    /** The whole time in one advance. */
    method Straight(dt: real) returns (ok: bool, ghost path: seq<Leg>)
      requires Valid() && dt > 0.0 && mode == LINEAR && speed != 0.0
      modifies `position, `velocity, `time
      ensures ok ==> Valid() && SameSpeeds(velocity, old(velocity))
      ensures time == if ok then old(time) + dt else old(time)
      ensures Flew(Surroundings(), Piece(old(time), old(position), old(velocity), path, position, velocity), dt, ok)
      ensures ok && Exact() ==> SafeTrace(lo, hi, path, old(position), position, dt, obstacles)
      ensures ok && Exact() ==>
        Flown(lo, hi, obstacles, Piece(old(time), old(position), old(velocity), path, position, velocity))
      ensures Exact() && obstacles == [] && !ok ==> WallContacts(lo, hi, old(position), old(velocity), dt) > COLLISION_BUDGET
      ensures Exact() && obstacles == [] && Roomy(lo, hi, speed, dt) ==> ok
    {
      if Exact() && Roomy(lo, hi, speed, dt) {
        FewContacts(lo, hi, position, velocity, dt, speed, dt);
      }
      ghost var left;
      ok, path, left := Advance(dt);
      if ok {
        time := time + dt;
      }
    }

    /** The random walk: segment by segment until the time is used up. */
    method Walk(dt: real, headings: nat -> Vec3) returns (ok: bool, ghost path: seq<Leg>, ghost pieces: seq<Piece>)
      requires Valid() && dt >= 0.0 && mode == RANDOM_WALK && speed != 0.0 && forall k: nat :: IsHeading(headings(k))
      modifies `position, `velocity, `time, `turnIndex
      ensures ok ==> Valid() && turnIndex >= old(turnIndex)
      ensures ok && Exact() ==> time == old(time) + dt && SafeTrace(lo, hi, path, old(position), position, dt, obstacles)
      ensures ok && Exact() ==>
        Walked(lo, hi, obstacles, headings, turnInterval, pieces, path, old(time), old(position), old(velocity),
               old(turnIndex), time, position, velocity, turnIndex)
      ensures ok ==>
        Strolled(Surroundings(), old(time) + dt, headings, pieces, old(time), old(position), old(velocity),
                 old(turnIndex), time, position, velocity)
      ensures !ok ==>
        && |pieces| == turnIndex - old(turnIndex) + 1
        && GaveUp(Surroundings(), old(time) + dt, headings, pieces, old(time), old(position), old(velocity),
                  old(turnIndex), time, position, velocity)
      ensures ok ==> old(time) + dt - turnSlack <= time <= old(time) + dt && |pieces| == turnIndex - old(turnIndex) + 1
      ensures ok && turnIndex == old(turnIndex) ==> SameSpeeds(velocity, old(velocity))
      ensures ok && turnIndex != old(turnIndex) ==> SameSpeeds(velocity, headings(turnIndex))
      ensures Exact() && obstacles == [] && Roomy(lo, hi, speed, turnInterval) ==> ok
    {
      ok, path, pieces := true, [], [Piece(time, position, velocity, [], position, velocity)];
      WalkStarted(lo, hi, obstacles, headings, turnInterval, time, position, velocity, turnIndex);
      var remaining := dt;
      ghost var horizon := Widths(time + dt + turnSlack, turnInterval);
      while remaining > turnSlack
        invariant ok && Valid() && remaining >= 0.0 && time + remaining == old(time) + dt
        invariant Walking(headings, path, pieces, old(time) + dt, old(time), old(position), old(velocity), old(turnIndex))
        invariant remaining > 0.0 ==> JustTurned(pieces)
        decreases horizon - turnIndex, if remaining > 0.0 then 1 else 0
      {
        var used;
        ok, used, path, pieces :=
          SegmentAlong(remaining, headings, path, pieces, old(time) + dt, old(time), old(position), old(velocity),
                       old(turnIndex));
        if !ok {
          return;
        }
        remaining := remaining - used;
      }
    }

    /** So far on a walk from this start. */
    ghost predicate Walking(headings: nat -> Vec3, path: seq<Leg>, pieces: seq<Piece>, end: real,
                            t0: real, p0: Vec3, v0: Vec3, k0: nat)
      requires Configured()
      reads this
    {
      OnWalk(Surroundings(), end, headings, path, pieces, t0, p0, v0, k0, time, position, velocity, turnIndex)
    }

    /** The last piece has only been begun, here and now. */
    ghost predicate JustTurned(pieces: seq<Piece>)
      reads this
    {
      pieces != [] && pieces[|pieces| - 1] == Piece(time, position, velocity, [], position, velocity)
    }

    /** One segment goes on with the walk. */
    method SegmentAlong(remaining: real, headings: nat -> Vec3, ghost path: seq<Leg>, ghost pieces: seq<Piece>,
                        ghost end: real, ghost t0: real, ghost p0: Vec3, ghost v0: Vec3, ghost k0: nat)
      returns (ok: bool, used: real, ghost more: seq<Leg>, ghost morePieces: seq<Piece>)
      requires Valid() && mode == RANDOM_WALK && speed != 0.0 && remaining > turnSlack
      requires forall k: nat :: IsHeading(headings(k))
      requires time + remaining == end
      requires Walking(headings, path, pieces, end, t0, p0, v0, k0) && JustTurned(pieces)
      modifies `position, `velocity, `time, `turnIndex
      ensures ok ==> Valid() && 0.0 <= used <= remaining && time == old(time) + used
      ensures ok ==> Walking(headings, more, morePieces, end, t0, p0, v0, k0)
      ensures !ok ==>
        && |morePieces| == turnIndex - k0 + 1
        && GaveUp(Surroundings(), end, headings, morePieces, t0, p0, v0, k0, time, position, velocity)
      ensures ok && turnIndex == old(turnIndex) ==> used == remaining
      ensures ok && turnIndex != old(turnIndex) ==>
        && old(turnIndex) < turnIndex <= Widths(old(time) + remaining + turnSlack, turnInterval)
        && JustTurned(morePieces)
      ensures Exact() && obstacles == [] && Roomy(lo, hi, speed, turnInterval) ==> ok
    {
      ghost var t, p, v, k := time, position, velocity, turnIndex;
      ghost var piece, arrived;
      ok, used, piece, arrived := WalkSegment(remaining, headings);
      ghost var f := Piece(t, p, v, piece, position, arrived);
      more, morePieces := path + piece, WalkedOn(headings, pieces, f, time, turnIndex != k, k);
      if ok {
        WalkGoesOn(Surroundings(), end, headings, path, pieces, t0, p0, v0, k0, t, p, v, k, f, time,
                   velocity, turnIndex);
      } else {
        StrolledInto(Surroundings(), end, headings, pieces, t0, p0, v0, k0, t, p, v, k, f);
      }
    }

    /** One advance of at most `limit`; in a world roomy for that long it cannot fail. */
    method AdvanceWithin(dt: real, limit: real) returns (ok: bool, ghost path: seq<Leg>)
      requires Valid() && mode != STATIC && speed != 0.0 && dt > 0.0 && (Exact() ==> dt <= limit)
      modifies `position, `velocity
      ensures ok ==> Valid() && SameSpeeds(velocity, old(velocity))
      ensures Flew(Surroundings(), Piece(old(time), old(position), old(velocity), path, position, velocity), dt, ok)
      ensures ok && Exact() ==> SafeTrace(lo, hi, path, old(position), position, dt, obstacles)
      ensures ok && Exact() ==>
        forall start :: Flown(lo, hi, obstacles, Piece(start, old(position), old(velocity), path, position, velocity))
      ensures Exact() && obstacles == [] && Roomy(lo, hi, speed, limit) ==> ok
    {
      if Exact() && Roomy(lo, hi, speed, limit) {
        FewContacts(lo, hi, position, velocity, dt, speed, limit);
      }
      ghost var left;
      ok, path, left := Advance(dt);
    }

    /** To the next turn or to the end of the time, and the turn if it is due. */
    method WalkSegment(remaining: real, headings: nat -> Vec3)
      returns (ok: bool, used: real, ghost path: seq<Leg>, ghost arrived: Vec3)
      requires Valid() && mode == RANDOM_WALK && speed != 0.0 && remaining > turnSlack
      requires forall k: nat :: IsHeading(headings(k))
      modifies `position, `velocity, `time, `turnIndex
      ensures ok ==> Valid() && 0.0 <= used <= remaining && time == old(time) + used
      ensures ok ==>
        Segmented(Surroundings(), old(time) + remaining, headings,
                  Piece(old(time), old(position), old(velocity), path, position, arrived), old(turnIndex), time,
                  velocity, turnIndex)
      ensures !ok ==>
        && time == old(time) && turnIndex == old(turnIndex) && velocity == arrived
        && Abandoned(Surroundings(), old(turnIndex), old(time) + remaining,
                     Piece(old(time), old(position), old(velocity), path, position, arrived))
      ensures ok && turnIndex == old(turnIndex) ==> used == remaining
      ensures ok && turnIndex != old(turnIndex) ==>
        turnIndex <= Widths(old(time) + remaining + turnSlack, turnInterval)
      ensures Exact() && obstacles == [] && Roomy(lo, hi, speed, turnInterval) ==> ok
    {
      ok, used, path, arrived := true, 0.0, [], velocity;
      ghost var before := time;
      var timeToTurn := TimeToTurn(turnIndex, time, turnInterval);
      var segment := MinReal(remaining, timeToTurn);
      if segment > turnSlack {
        ok, path := AdvanceWithin(segment, turnInterval);
        arrived := velocity;
        if !ok {
          return;
        }
        time, used := time + segment, segment;
      }
      if timeToTurn <= segment + turnSlack {
        TurnDue(turnIndex, before, remaining + turnSlack, turnInterval);
      }
      TakeTurn(before, segment, timeToTurn, headings);
      if Exact() {
        TurnTime(turnIndex, old(turnIndex), before, time, segment, timeToTurn, turnInterval);
      }
    }

    /** The end of a segment: the turn, if it is due within the slack. */
    method TakeTurn(ghost before: real, segment: real, timeToTurn: real, headings: nat -> Vec3)
      requires Configured() && mode == RANDOM_WALK && speed != 0.0 && forall k: nat :: IsHeading(headings(k))
      requires InBounds(lo, hi, position) && IsHeading(velocity) && (Exact() ==> Free(obstacles, position))
      requires timeToTurn == TimeToTurn(turnIndex, before, turnInterval) && 0.0 <= segment <= timeToTurn
      requires Exact() ==> turnIndex == Widths(before, turnInterval) && time == before + segment
      modifies `turnIndex, `velocity
      ensures Valid()
      ensures turnIndex == old(turnIndex) + if timeToTurn <= segment + turnSlack then 1 else 0
      ensures velocity == if timeToTurn <= segment + turnSlack then headings(turnIndex) else old(velocity)
    {
      if Exact() {
        ClockAfter(turnIndex, before, time, turnInterval);
      }
      if timeToTurn <= segment + turnSlack {
        turnIndex := turnIndex + 1;
        velocity := headings(turnIndex);
      }
    }
  }

  /**
   When an event is merged with a wall met later, the target flies on to the
   wall, and is inside an obstacle if the wall point is.
   */
  method MergedEventEnters(target: MovingTarget, remaining: real, wallTime: real, i: nat)
    requires target.Valid() && i < |target.obstacles|
    requires target.slack.tolerance < remaining && 0.0 <= wallTime <= remaining
    requires MergesAtWall(target.lo, target.hi, target.obstacles, target.position, target.velocity, target.slack,
                          wallTime)
    requires StrictlyInside(target.obstacles[i], target.position.Along(target.velocity, wallTime))
    modifies target
    ensures StrictlyInside(target.obstacles[i], target.position) && SameSpeeds(target.velocity, old(target.velocity))
  {
    var found, hitTime, hitAxes := target.OneEvent(remaining);
  }

  /** Every flight along axis 0 has such an input, at any speed: a wall a second ahead, a face half a tolerance nearer. */
  lemma MergedInputExists(p: Vec3, v: Vec3, slack: Slack) returns (lo: Vec3, hi: Vec3, b: Box)
    requires slack.Valid() && slack.tolerance > 0.0 && v.x > slack.still && v.y == 0.0 && v.z == 0.0
    ensures lo.x < hi.x && lo.y < hi.y && InBounds(lo, hi, p) && (slack.tolerance < 2.0 ==> Free([b], p))
    ensures MergesAtWall(lo, hi, [b], p, v, slack, 1.0) && StrictlyInside(b, p.Along(v, 1.0))
  {
    var e := 1.0 - slack.tolerance / 2.0;
    var face, wall := Reach(p.x, v.x, e), Reach(p.x, v.x, 1.0);
    ReachOrder(p.x, v.x, 0.0, 1.0);
    ReachOrder(p.x, v.x, e, 1.0);
    ReachStart(p.x, v.x);
    StillAxis(p.y, v.y);
    StillAxis(p.z, v.z);
    lo, hi := Vec3(p.x - 1.0, p.y - 1.0, p.z), Vec3(wall, p.y + 1.0, p.z);
    b := Aabb(Vec3(face, p.y - 1.0, p.z - 1.0), Vec3(wall + 1.0, p.y + 1.0, p.z + 1.0));
    if slack.tolerance < 2.0 {
      ReachOrder(p.x, v.x, 0.0, e);
    }
    SingleAxisMerges(lo, hi, b, p, v, slack, e, 1.0);
  }

  lemma SingleAxisMerges(lo: Vec3, hi: Vec3, b: Box, p: Vec3, v: Vec3, slack: Slack, e: real, wallTime: real)
    requires slack.Valid() && AbsReal(v.x) > slack.still && v.y == 0.0 && v.z == 0.0
    requires AtWall(lo, hi, p, v, 0, wallTime) && EntersThrough(b, p, v, e, 0) && wallTime - slack.tolerance <= e
    ensures MergesAtWall(lo, hi, [b], p, v, slack, wallTime)
  {
    assert Swept(v, slack.still) == v;
    forall f | LeadsAt(b, p, v, f, slack.tolerance) ensures f == e {
      EnteredOnce(b, p, v, f, 0, e);
    }
  }

  /** Until the next multiple of the interval, by a clock that may lag behind it. */
  function TimeToTurn(index: nat, now: real, interval: real): (t: real)
    requires interval > 0.0
    ensures t >= 0.0 && (index == Widths(now, interval) ==> 0.0 < t <= interval)
  {
    MultipleNext(index, interval);
    MaxReal(0.0, Multiple(index + 1, interval) - now)
  }

  /** A turn is taken exactly at a multiple of the interval. */
  lemma TurnTime(index: nat, index0: nat, before: real, now: real, segment: real, timeToTurn: real, interval: real)
    requires interval > 0.0 && index0 == Widths(before, interval) && timeToTurn == TimeToTurn(index0, before, interval)
    requires segment <= timeToTurn && now == before + segment
    requires index == index0 + if timeToTurn <= segment then 1 else 0
    ensures index != index0 ==> now == Multiple(index, interval)
  {
  }

  lemma TurnDue(index: nat, now: real, span: real, interval: real)
    requires interval > 0.0 && TimeToTurn(index, now, interval) <= span
    ensures index + 1 <= Widths(now + span, interval)
  {
    var last := Widths(now + span, interval);
    if last < index + 1 {
      MultipleOrder(last, index + 1, interval);
    }
  }

  /** The clock of an exact walk: on the next turn exactly when the segment runs up to it. */
  lemma ClockAfter(index: nat, before: real, now: real, interval: real)
    requires interval > 0.0 && index == Widths(before, interval)
    requires before <= now <= before + TimeToTurn(index, before, interval)
    ensures Widths(now, interval) == if now == before + TimeToTurn(index, before, interval) then index + 1 else index
  {
    MultipleNext(index, interval);
    MultipleNext(index + 1, interval);
    if now == Multiple(index + 1, interval) {
      WidthsUnique(now, interval, index + 1);
    } else {
      WidthsUnique(now, interval, index);
    }
  }

  lemma NoMotion(p: Vec3, v: Vec3)
    ensures p.Along(v, 0.0) == p
  {
    ReachStart(p.x, v.x);
    ReachStart(p.y, v.y);
    ReachStart(p.z, v.z);
  }

  lemma ClearAtEnd(leg: Leg, obstacles: seq<Box>)
    requires LegClear(leg, obstacles)
    ensures Free(obstacles, leg.End())
  {
    forall i | 0 <= i < |obstacles| ensures !StrictlyInside(obstacles[i], leg.End()) {
      assert ClearUntil(obstacles[i], leg.start, leg.velocity, leg.duration);
    }
  }

  lemma ClearToHit(b: Box, p: Vec3, v: Vec3, remaining: real, hit: Option<Hit>)
    requires v.z == 0.0 && !StrictlyInside(b, p)
    requires hit.Some? ==> EntryAt(b, p, v, hit.value.time)
    requires hit.None? ==> forall t | 0.0 <= t <= remaining :: !EntryAt(b, p, v, t)
    ensures ClearUntil(b, p, v, if hit.Some? then hit.value.time else remaining)
  {
    if hit.Some? {
      ClearBeforeEntry(b, p, v, hit.value.time);
    } else {
      ClearWithoutEntry(b, p, v, remaining);
    }
  }
}
