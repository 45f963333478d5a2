/**
 Swept-point collision against one box: `_first_aabb_hit` of
 uav_agent/env/moving_target.py.
 */
module SweptPoint {
  import opened Common
  import opened Arithmetic
  import opened Geometry

  /** The numeric slack of the integrator; the source uses 1e-10 and 1e-15. */
  datatype Slack = Slack(tolerance: real, still: real) {
    predicate Valid() { tolerance >= 0.0 && still >= 0.0 }
    predicate Exact() { tolerance == 0.0 && still == 0.0 }
  }

  const SOURCE_SLACK := Slack(0.0000000001, 0.000000000000001)

  datatype Hit = Hit(time: real, axes: set<nat>)

  // ------------------------------------------------- geometric vocabulary

  /** The face a point moving at this speed would enter through. */
  function NearFace(b: Aabb, axis: nat, speed: real): real
    requires axis < 3
  {
    if speed > 0.0 then b.lo.At(axis) else b.hi.At(axis)
  }

  /** On this axis the point lies on a face and its velocity points into the box. */
  predicate EntersThrough(b: Aabb, p: Vec3, v: Vec3, t: real, axis: nat)
    requires axis < 3
  {
    v.At(axis) != 0.0 && Reach(p.At(axis), v.At(axis), t) == NearFace(b, axis, v.At(axis))
  }

  /** At time t the point touches the closed box and is entering it sideways. */
  predicate EntryAt(b: Aabb, p: Vec3, v: Vec3, t: real) {
    && Contains(b, p.Along(v, t))
    && (EntersThrough(b, p, v, t, 0) || EntersThrough(b, p, v, t, 1))
  }

  ghost predicate ClearUntil(b: Aabb, p: Vec3, v: Vec3, h: real) {
    forall t | 0.0 <= t <= h :: !StrictlyInside(b, p.Along(v, t))
  }

  // ------------------------------------------------------- one axis in time

  lemma ReachOrder(value: real, speed: real, s: real, t: real)
    requires s < t
    ensures speed > 0.0 ==> Reach(value, speed, s) < Reach(value, speed, t)
    ensures speed < 0.0 ==> Reach(value, speed, s) > Reach(value, speed, t)
    ensures speed == 0.0 ==> Reach(value, speed, s) == value == Reach(value, speed, t)
  {
    if speed != 0.0 {
      ProductOrder(s, t, AbsReal(speed));
      ProductSign(AbsReal(speed), s);
      ProductSign(AbsReal(speed), t);
    }
  }

  lemma ReachStart(value: real, speed: real)
    ensures Reach(value, speed, 0.0) == value
  {
  }

  /** When the moving coordinate crosses a face. */
  lemma CrossingTime(face: real, value: real, speed: real) returns (t: real)
    requires speed != 0.0
    ensures t == (face - value) / speed
    ensures Reach(value, speed, t) == face
    ensures forall s :: s < t <==> if speed > 0.0 then Reach(value, speed, s) < face else Reach(value, speed, s) > face
  {
    t := (face - value) / speed;
    DivisionUndone(face - value, speed);
    forall s ensures s < t <==> if speed > 0.0 then Reach(value, speed, s) < face else Reach(value, speed, s) > face {
      if s < t {
        ReachOrder(value, speed, s, t);
      } else if t < s {
        ReachOrder(value, speed, t, s);
      }
    }
  }

  // ------------------------------------------------- clearance consequences

  /** Up to a sideways entry the path has not been inside the box. */
  lemma ClearBeforeEntry(b: Box, p: Vec3, v: Vec3, t: real)
    requires EntryAt(b, p, v, t)
    ensures ClearUntil(b, p, v, t)
  {
    var axis := if EntersThrough(b, p, v, t, 0) then 0 else 1;
    forall s | 0.0 <= s <= t ensures !StrictlyInside(b, p.Along(v, s)) {
      if s < t {
        ReachOrder(p.At(axis), v.At(axis), s, t);
      }
      assert p.Along(v, s).At(axis) == Reach(p.At(axis), v.At(axis), s);
    }
  }

  /** Where a horizontally moving point came in on one axis, for a point now strictly inside. */
  lemma CameInAt(b: Box, p: Vec3, v: Vec3, axis: nat, t: real) returns (e: real)
    requires axis < 3 && v.At(axis) != 0.0
    requires b.lo.At(axis) < Reach(p.At(axis), v.At(axis), t) < b.hi.At(axis)
    ensures e < t && EntersThrough(b, p, v, e, axis)
    ensures forall s | e < s <= t :: b.lo.At(axis) < Reach(p.At(axis), v.At(axis), s) < b.hi.At(axis)
  {
    var value, speed := p.At(axis), v.At(axis);
    e := CrossingTime(NearFace(b, axis, speed), value, speed);
    forall s | e < s <= t ensures b.lo.At(axis) < Reach(value, speed, s) < b.hi.At(axis) {
      if s < t {
        ReachOrder(value, speed, s, t);
      }
      ReachOrder(value, speed, e, s);
    }
  }

  /** Without an entry in [0, h], a point that starts outside never gets inside. */
  lemma ClearWithoutEntry(b: Box, p: Vec3, v: Vec3, h: real)
    requires v.z == 0.0 && !StrictlyInside(b, p)
    requires forall t | 0.0 <= t <= h :: !EntryAt(b, p, v, t)
    ensures ClearUntil(b, p, v, h)
  {
    forall t | 0.0 <= t <= h ensures !StrictlyInside(b, p.Along(v, t)) {
      if StrictlyInside(b, p.Along(v, t)) {
        InsideMeansEntered(b, p, v, t);
      }
    }
  }

  lemma InsideMeansEntered(b: Box, p: Vec3, v: Vec3, t: real)
    requires v.z == 0.0 && t >= 0.0 && !StrictlyInside(b, p)
    requires StrictlyInside(b, p.Along(v, t))
    ensures exists e | 0.0 <= e <= t :: EntryAt(b, p, v, e)
  {
    var e0, e1 := -1.0, -1.0;
    if v.x != 0.0 {
      e0 := CameInAt(b, p, v, 0, t);
    } else {
      StillAxis(p.x, v.x);
    }
    if v.y != 0.0 {
      e1 := CameInAt(b, p, v, 1, t);
    } else {
      StillAxis(p.y, v.y);
    }
    StillAxis(p.z, v.z);
    var e := MaxReal(e0, e1);
    if e < 0.0 {
      ReachStart(p.x, v.x);
      ReachStart(p.y, v.y);
      ReachStart(p.z, v.z);
      assert StrictlyInside(b, p.Along(v, 0.0));
    }
    assert EntryAt(b, p, v, e);
  }

  lemma StillAxis(value: real, speed: real)
    requires speed == 0.0
    ensures forall t :: Reach(value, speed, t) == value
  {
  }

  // ------------------------------------------------------ the scan itself

  /** [entry, exit] is the time window in which the first `axis` axes are all inside the box. */
  ghost predicate WindowOf(b: Aabb, p: Vec3, v: Vec3, axis: nat, entry: Option<real>, exit: Option<real>)
    requires axis <= 3
  {
    && (entry.Some? <==> exit.Some?)
    && forall t :: AxesHit(b, p, v, axis, t) <==> (entry.Some? ==> entry.value <= t <= exit.value)
  }

  /** No scanned axis is entered after `entry`, and `axes` are those entered at `entry`. */
  ghost predicate LastEntry(b: Aabb, p: Vec3, v: Vec3, axis: nat, entry: Option<real>, axes: set<nat>)
    requires axis <= 3
  {
    && (forall a: nat, t | a < axis && EntersThrough(b, p, v, t, a) :: entry.Some? && t <= entry.value)
    && (forall a: nat :: a in axes <==> a < axis && entry.Some? && EntersThrough(b, p, v, entry.value, a))
  }

  /** What the scan of the first `axis` axes has established, with no slack. */
  ghost predicate ScanExact(b: Aabb, p: Vec3, v: Vec3, axis: nat, entry: Option<real>, exit: Option<real>,
                            axes: set<nat>)
    requires axis <= 3
  {
    WindowOf(b, p, v, axis, entry, exit) && LastEntry(b, p, v, axis, entry, axes)
  }

  // ---------------------------------------------- entries under a positive slack

  /** Distance still to travel to the face ahead; negative once it has been passed. */
  function Gap(b: Aabb, p: Vec3, v: Vec3, axis: nat): real
    requires axis < 3
  {
    if v.At(axis) > 0.0 then b.lo.At(axis) - p.At(axis) else p.At(axis) - b.hi.At(axis)
  }

  /** Distance still to travel to the face behind the one ahead. */
  function FarGap(b: Aabb, p: Vec3, v: Vec3, axis: nat): real
    requires axis < 3
  {
    if v.At(axis) > 0.0 then b.hi.At(axis) - p.At(axis) else p.At(axis) - b.lo.At(axis)
  }

  /** How far the point travels on this axis in time s. */
  function Travel(v: Vec3, axis: nat, s: real): real
    requires axis < 3
  {
    Product(AbsReal(v.At(axis)), s)
  }

  /** Close to a face, with a velocity pointing into the box through it. */
  predicate TouchesInward(b: Aabb, p: Vec3, v: Vec3, a: nat, tolerance: real)
    requires a < 3
  {
    || (AbsReal(p.At(a) - b.lo.At(a)) <= tolerance && v.At(a) > 0.0)
    || (AbsReal(p.At(a) - b.hi.At(a)) <= tolerance && v.At(a) < 0.0)
  }

  /** The face ahead on this axis is crossed no earlier than the tolerance before t. */
  predicate Registered(b: Aabb, p: Vec3, v: Vec3, t: real, tolerance: real, axis: nat)
    requires axis < 3
  {
    v.At(axis) != 0.0 && Travel(v, axis, t - tolerance) <= Gap(b, p, v, axis)
  }

  /** The axis whose crossing gives the reported time. */
  function Lead(b: Aabb, p: Vec3, v: Vec3, t: real, tolerance: real): nat {
    if Registered(b, p, v, t, tolerance, 0) then 0 else 1
  }

  /**
   The entries at time t that are dropped: the crossing on the leading axis is
   within the tolerance in time, and no registered face is within it in space.
   */
  predicate DropsEntry(b: Aabb, p: Vec3, v: Vec3, t: real, tolerance: real) {
    var lead := Lead(b, p, v, t, tolerance);
    && Gap(b, p, v, lead) <= Travel(v, lead, tolerance)
    && forall a: nat | a < 2 && Registered(b, p, v, t, tolerance, a) :: AbsReal(Gap(b, p, v, a)) > tolerance
  }

  /** By time s the axis has not left its slab; a still one is in its slab within the tolerance. */
  predicate NotLeft(b: Aabb, p: Vec3, v: Vec3, s: real, tolerance: real, axis: nat)
    requires axis < 3
  {
    if v.At(axis) == 0.0 then b.lo.At(axis) - tolerance <= p.At(axis) <= b.hi.At(axis) + tolerance
    else Travel(v, axis, s) <= FarGap(b, p, v, axis)
  }

  predicate NoneLeft(b: Aabb, p: Vec3, v: Vec3, s: real, tolerance: real, axes: nat)
    requires axes <= 3
  {
    forall a: nat | a < axes :: NotLeft(b, p, v, s, tolerance, a)
  }

  /** The later side face is crossed at e; of two crossed within the tolerance, the one on axis 0 leads. */
  predicate LeadsAt(b: Aabb, p: Vec3, v: Vec3, e: real, tolerance: real) {
    || (EntersThrough(b, p, v, e, 0) && (v.y != 0.0 ==> Gap(b, p, v, 1) <= Travel(v, 1, e + tolerance)))
    || (EntersThrough(b, p, v, e, 1) && (v.x != 0.0 ==> Gap(b, p, v, 0) < Travel(v, 0, e - tolerance)))
  }

  /**
   The collision test on a horizontal motion, to its last tolerance: the leading
   crossing is at e, no axis has left its slab more than the tolerance before
   e or before now, there is time for it, and an immediate one is a touch from
   outside.
   */
  predicate ReportedAt(b: Aabb, p: Vec3, v: Vec3, e: real, maxTime: real, tolerance: real) {
    && LeadsAt(b, p, v, e, tolerance)
    && NoneLeft(b, p, v, e - tolerance, tolerance, 3) && NoneLeft(b, p, v, -tolerance, tolerance, 3)
    && MaxReal(0.0, e) <= maxTime + tolerance
    && (e <= tolerance ==>
          exists a: nat :: a < 2 && Registered(b, p, v, e, tolerance, a) && TouchesInward(b, p, v, a, tolerance))
  }

  /** What the scan of the first `axis` axes has found. */
  ghost predicate ScanLead(b: Aabb, p: Vec3, v: Vec3, tolerance: real, axis: nat,
                           entry: Option<real>, exit: Option<real>, axes: set<nat>)
    requires axis <= 3
  {
    && (entry.Some? <==> exit.Some?)
    && (forall s :: NoneLeft(b, p, v, s, tolerance, axis) <==> (exit.Some? ==> s <= exit.value))
    && if axis == 0 || (v.x == 0.0 && (axis == 1 || v.y == 0.0)) then entry.None? && axes == {}
       else if axis == 1 then entry.Some? && axes == {0} && EntersThrough(b, p, v, entry.value, 0)
       else
         && entry.Some? && LeadsAt(b, p, v, entry.value, tolerance)
         && forall a: nat :: a in axes <==> a < 2 && Registered(b, p, v, entry.value, tolerance, a)
  }

  /** The two face-crossing times of a moving axis, in order. */
  lemma FaceTimes(b: Box, p: Vec3, v: Vec3, axis: nat, first: real, second: real)
    requires axis < 3 && v.At(axis) != 0.0
    requires first == (b.lo.At(axis) - p.At(axis)) / v.At(axis)
    requires second == (b.hi.At(axis) - p.At(axis)) / v.At(axis)
    ensures MinReal(first, second) < MaxReal(first, second)
    ensures forall t :: AxisHit(b, p, v, axis, t) <==> MinReal(first, second) <= t <= MaxReal(first, second)
    ensures forall t :: EntersThrough(b, p, v, t, axis) <==> t == MinReal(first, second)
  {
    MovingAxis(b, p, v, axis, first, second);
    var t0 := CrossingTime(b.lo.At(axis), p.At(axis), v.At(axis));
    var t1 := CrossingTime(b.hi.At(axis), p.At(axis), v.At(axis));
    var near := MinReal(first, second);
    forall t ensures EntersThrough(b, p, v, t, axis) <==> t == near {
      if t < near {
        ReachOrder(p.At(axis), v.At(axis), t, near);
      } else if near < t {
        ReachOrder(p.At(axis), v.At(axis), near, t);
      }
    }
  }

  lemma ScanStill(b: Box, p: Vec3, v: Vec3, axis: nat, entry: Option<real>, exit: Option<real>, axes: set<nat>)
    requires axis < 3 && v.At(axis) == 0.0 && InSlab(b, axis, p.At(axis))
    requires ScanExact(b, p, v, axis, entry, exit, axes)
    ensures ScanExact(b, p, v, axis + 1, entry, exit, axes)
  {
    StillAxis(p.At(axis), v.At(axis));
    var n := axis + 1;
    forall t ensures AxesHit(b, p, v, n, t) <==> AxesHit(b, p, v, axis, t) {
      assert AxisHit(b, p, v, axis, t);
    }
  }

  lemma MissedStillAxis(b: Box, p: Vec3, v: Vec3, axis: nat)
    requires axis < 3 && v.At(axis) == 0.0 && !InSlab(b, axis, p.At(axis))
    ensures forall t :: !EntryAt(b, p, v, t)
  {
    StillAxis(p.At(axis), v.At(axis));
    forall t ensures !EntryAt(b, p, v, t) {
      assert !AxisHit(b, p, v, axis, t);
    }
  }

  lemma ScanMoving(b: Box, p: Vec3, v: Vec3, axis: nat, entry0: Option<real>, exit0: Option<real>, axes0: set<nat>,
                   near: real, far: real, entry: Option<real>, exit: Option<real>, axes: set<nat>)
    requires axis < 3
    requires ScanExact(b, p, v, axis, entry0, exit0, axes0)
    requires forall t :: AxisHit(b, p, v, axis, t) <==> near <= t <= far
    requires forall t :: EntersThrough(b, p, v, t, axis) <==> t == near
    requires entry == Some(if entry0.None? then near else MaxReal(entry0.value, near))
    requires exit == Some(if exit0.None? then far else MinReal(exit0.value, far))
    requires axes == (if entry0.None? || near > entry0.value then {axis}
                      else if near == entry0.value then axes0 + {axis} else axes0)
    ensures ScanExact(b, p, v, axis + 1, entry, exit, axes)
  {
    var n := axis + 1;
    forall t ensures AxesHit(b, p, v, n, t) <==> AxesHit(b, p, v, axis, t) && near <= t <= far {
      assert AxisHit(b, p, v, axis, t) <==> near <= t <= far;
    }
  }

  /** A contradictory time window, or one outside [0, maxTime], holds no entry. */
  lemma ScanWindow(b: Box, p: Vec3, v: Vec3, axis: nat, entry: Option<real>, exit: Option<real>, axes: set<nat>, t: real)
    requires axis <= 3 && ScanExact(b, p, v, axis, entry, exit, axes) && entry.Some?
    requires EntryAt(b, p, v, t)
    ensures entry.value <= t <= exit.value
    ensures axis == 3 ==> t == entry.value
  {
    AllAxesHit(b, p, v, t);
    FewerAxesHit(b, p, v, axis, t);
  }

  lemma FewerAxesHit(b: Box, p: Vec3, v: Vec3, axis: nat, t: real)
    requires axis <= 3 && AxesHit(b, p, v, 3, t)
    ensures AxesHit(b, p, v, axis, t)
    decreases 3 - axis
  {
    if axis < 3 {
      FewerAxesHit(b, p, v, axis + 1, t);
    }
  }

  /** What a finished exact scan says about entries in [0, maxTime]. */
  lemma ScanDone(b: Box, p: Vec3, v: Vec3, entry: Option<real>, exit: Option<real>, axes: set<nat>)
    requires ScanExact(b, p, v, 3, entry, exit, axes)
    ensures forall t | EntryAt(b, p, v, t) :: entry == Some(t) && t <= exit.value
    ensures entry.Some? && entry.value <= exit.value && (0 in axes || 1 in axes) ==> EntryAt(b, p, v, entry.value)
  {
    forall t | EntryAt(b, p, v, t) ensures entry == Some(t) && t <= exit.value {
      ScanWindow(b, p, v, 3, entry, exit, axes, t);
    }
    if entry.Some? {
      AllAxesHit(b, p, v, entry.value);
    }
  }

  /** With no slack, touching a face inwards is entering at time zero. */
  lemma InwardMeansNow(b: Box, p: Vec3, v: Vec3, entry: Option<real>, exit: Option<real>, axes: set<nat>, inward: bool)
    requires ScanExact(b, p, v, 3, entry, exit, axes) && entry.Some? && entry.value <= 0.0
    requires 0 in axes || 1 in axes
    requires inward <==> exists j: nat :: j < 2 && j in axes && TouchesInward(b, p, v, j, 0.0)
    ensures inward <==> entry.value == 0.0
  {
    ReachStart(p.x, v.x);
    ReachStart(p.y, v.y);
    assert forall j | 0 <= j < 2 :: TouchesInward(b, p, v, j, 0.0) <==> EntersThrough(b, p, v, 0.0, j);
  }

  /** A face is crossed at time e when the point has travelled the gap by then. */
  lemma CrossedAfterGap(b: Aabb, p: Vec3, v: Vec3, axis: nat, e: real)
    requires axis < 3 && v.At(axis) != 0.0
    ensures EntersThrough(b, p, v, e, axis) <==> Travel(v, axis, e) == Gap(b, p, v, axis)
    ensures EntersThrough(b, p, v, e, axis) ==> forall s ::
      && (e <= s <==> Gap(b, p, v, axis) <= Travel(v, axis, s))
      && (s <= e <==> Travel(v, axis, s) <= Gap(b, p, v, axis))
  {
    ProductSign(v.At(axis), e);
    if EntersThrough(b, p, v, e, axis) {
      forall s ensures && (e <= s <==> Gap(b, p, v, axis) <= Travel(v, axis, s))
                       && (s <= e <==> Travel(v, axis, s) <= Gap(b, p, v, axis)) {
        TimesOrder(AbsReal(v.At(axis)), e, s);
        TimesOrder(AbsReal(v.At(axis)), s, e);
      }
    }
  }

  /** A face is left behind at its crossing time. */
  lemma LeftAfterFar(b: Box, p: Vec3, v: Vec3, axis: nat, near: real, far: real)
    requires axis < 3 && v.At(axis) != 0.0
    requires forall t :: AxisHit(b, p, v, axis, t) <==> near <= t <= far
    requires EntersThrough(b, p, v, near, axis)
    ensures near < far
    ensures forall s, tolerance :: NotLeft(b, p, v, s, tolerance, axis) <==> s <= far
  {
    var out := CrossingTime(NearFace(b, axis, -v.At(axis)), p.At(axis), v.At(axis));
    ProductSign(v.At(axis), out);
    CrossedAfterGap(b, p, v, axis, near);
    TimesOrder(AbsReal(v.At(axis)), near, out);
    assert AxisHit(b, p, v, axis, out);
    TimesOrder(AbsReal(v.At(axis)), out, far);
    ProductSign(v.At(axis), far);
    assert AxisHit(b, p, v, axis, far);
    forall s, tolerance ensures NotLeft(b, p, v, s, tolerance, axis) <==> s <= far {
      TimesOrder(AbsReal(v.At(axis)), s, far);
      TimesOrder(AbsReal(v.At(axis)), far, s);
    }
  }

  lemma LeadStill(b: Box, p: Vec3, v: Vec3, tolerance: real, axis: nat,
                  entry: Option<real>, exit: Option<real>, axes: set<nat>)
    requires tolerance >= 0.0 && axis < 3 && v.At(axis) == 0.0
    requires ScanLead(b, p, v, tolerance, axis, entry, exit, axes)
    ensures if NotLeft(b, p, v, 0.0, tolerance, axis) then ScanLead(b, p, v, tolerance, axis + 1, entry, exit, axes)
            else forall e, maxTime :: !ReportedAt(b, p, v, e, maxTime, tolerance)
  {
    var n := axis + 1;
    if NotLeft(b, p, v, 0.0, tolerance, axis) {
      forall s ensures NoneLeft(b, p, v, s, tolerance, n) <==> NoneLeft(b, p, v, s, tolerance, axis) {
        assert NotLeft(b, p, v, s, tolerance, axis);
      }
      if axis == 1 && entry.Some? {
        CrossedAfterGap(b, p, v, 0, entry.value);
      }
    } else {
      forall e, maxTime ensures !ReportedAt(b, p, v, e, maxTime, tolerance) {
        assert !NotLeft(b, p, v, -tolerance, tolerance, axis);
      }
    }
  }

  /** One more moving axis; on a horizontal motion it is a side axis. */
  lemma LeadMoving(b: Box, p: Vec3, v: Vec3, tolerance: real, axis: nat, entry0: Option<real>, exit0: Option<real>,
                   axes0: set<nat>, near: real, far: real, entry: Option<real>, exit: Option<real>, axes: set<nat>)
    requires tolerance >= 0.0 && axis < 2 && v.At(axis) != 0.0
    requires ScanLead(b, p, v, tolerance, axis, entry0, exit0, axes0)
    requires forall t :: AxisHit(b, p, v, axis, t) <==> near <= t <= far
    requires EntersThrough(b, p, v, near, axis)
    requires if entry0.None? || near > entry0.value + tolerance then entry == Some(near) && axes == {axis}
             else entry == entry0 && axes == if AbsReal(near - entry0.value) <= tolerance then axes0 + {axis} else axes0
    requires exit == Some(if exit0.None? then far else MinReal(exit0.value, far))
    ensures ScanLead(b, p, v, tolerance, axis + 1, entry, exit, axes)
  {
    var n := axis + 1;
    LeftAfterFar(b, p, v, axis, near, far);
    forall s ensures NoneLeft(b, p, v, s, tolerance, n) <==> NoneLeft(b, p, v, s, tolerance, axis) && s <= far {
      assert NotLeft(b, p, v, s, tolerance, axis) <==> s <= far;
    }
    CrossedAfterGap(b, p, v, axis, near);
    if axis == 1 && entry0.Some? {
      CrossedAfterGap(b, p, v, 0, entry0.value);
    }
  }

  /** A scan that gives up because the window is empty by more than the tolerance reports nothing. */
  lemma LeadEmpty(b: Box, p: Vec3, v: Vec3, tolerance: real, axis: nat,
                  entry: Option<real>, exit: Option<real>, axes: set<nat>)
    requires tolerance >= 0.0 && 1 <= axis <= 2 && v.At(axis - 1) != 0.0
    requires ScanLead(b, p, v, tolerance, axis, entry, exit, axes) && entry.value > exit.value + tolerance
    ensures forall e, maxTime :: !ReportedAt(b, p, v, e, maxTime, tolerance)
  {
    if axis == 1 {
      CrossedAfterGap(b, p, v, 0, entry.value);
      assert NoneLeft(b, p, v, entry.value, tolerance, 1);
    } else {
      assert !NoneLeft(b, p, v, entry.value - tolerance, tolerance, 2);
      forall e, maxTime ensures !ReportedAt(b, p, v, e, maxTime, tolerance) {
        if LeadsAt(b, p, v, e, tolerance) {
          OneLead(b, p, v, tolerance, e, entry.value);
        }
      }
    }
  }

  lemma OneLead(b: Box, p: Vec3, v: Vec3, tolerance: real, e: real, f: real)
    requires tolerance >= 0.0 && LeadsAt(b, p, v, e, tolerance) && LeadsAt(b, p, v, f, tolerance)
    ensures e == f
  {
    if EntersThrough(b, p, v, e, 0) {
      CrossedAfterGap(b, p, v, 0, e);
    }
    if EntersThrough(b, p, v, e, 1) {
      CrossedAfterGap(b, p, v, 1, e);
    }
    if EntersThrough(b, p, v, f, 0) {
      CrossedAfterGap(b, p, v, 0, f);
    }
    if EntersThrough(b, p, v, f, 1) {
      CrossedAfterGap(b, p, v, 1, f);
    }
  }

  lemma EnteredOnce(b: Box, p: Vec3, v: Vec3, t: real, axis: nat, e: real)
    requires axis < 3 && v.At(axis) != 0.0 && EntersThrough(b, p, v, e, axis)
    ensures EntersThrough(b, p, v, t, axis) <==> t == e
  {
    if t < e {
      ReachOrder(p.At(axis), v.At(axis), t, e);
    } else if e < t {
      ReachOrder(p.At(axis), v.At(axis), e, t);
    }
  }

  /** On an entry of the motion, the test reports exactly what `DropsEntry` does not drop. */
  lemma DropLaw(b: Box, p: Vec3, v: Vec3, t: real, maxTime: real, tolerance: real) returns (e: real)
    requires tolerance >= 0.0 && v.z == 0.0 && EntryAt(b, p, v, t) && 0.0 <= t <= maxTime
    ensures LeadsAt(b, p, v, e, tolerance) && t - tolerance <= e <= t
    ensures ReportedAt(b, p, v, e, maxTime, tolerance) <==> !DropsEntry(b, p, v, t, tolerance)
    ensures forall a: nat | a < 2 :: Registered(b, p, v, e, tolerance, a) <==> Registered(b, p, v, t, tolerance, a)
  {
    e := LeadOfEntry(b, p, v, t, tolerance);
    forall a: nat, s | a < 3 && s <= t ensures NotLeft(b, p, v, s, tolerance, a) {
      NotLeftYet(b, p, v, t, a, s, tolerance);
    }
    assert NoneLeft(b, p, v, e - tolerance, tolerance, 3) && NoneLeft(b, p, v, -tolerance, tolerance, 3);
    assert forall a: nat | a < 2 && v.At(a) != 0.0 ::
      TouchesInward(b, p, v, a, tolerance) <==> AbsReal(Gap(b, p, v, a)) <= tolerance;
  }

  lemma LeadOfEntry(b: Box, p: Vec3, v: Vec3, t: real, tolerance: real) returns (e: real)
    requires tolerance >= 0.0 && EntryAt(b, p, v, t)
    ensures LeadsAt(b, p, v, e, tolerance) && t - tolerance <= e <= t
    ensures var lead := Lead(b, p, v, t, tolerance); e <= tolerance <==> Gap(b, p, v, lead) <= Travel(v, lead, tolerance)
    ensures forall a: nat | a < 2 :: Registered(b, p, v, e, tolerance, a) <==> Registered(b, p, v, t, tolerance, a)
  {
    var lead := Lead(b, p, v, t, tolerance);
    if lead == 1 {
      EntryOnOther(b, p, v, t, tolerance);
    }
    e := CrossingTime(NearFace(b, lead, v.At(lead)), p.At(lead), v.At(lead));
    CrossedAfterGap(b, p, v, lead, e);
    EnteredBy(b, p, v, t, lead);
    var other := 1 - lead;
    if v.At(other) != 0.0 {
      EnteredBy(b, p, v, t, other);
      var f := CrossingTime(NearFace(b, other, v.At(other)), p.At(other), v.At(other));
      CrossedAfterGap(b, p, v, other, f);
      assert e == t || f == t by {
        LaterIsEntry(b, p, v, t, lead, e, other, f);
      }
    } else {
      EnteredOnce(b, p, v, t, lead, e);
    }
  }

  lemma LaterIsEntry(b: Box, p: Vec3, v: Vec3, t: real, lead: nat, e: real, other: nat, f: real)
    requires lead < 2 && other == 1 - lead && EntryAt(b, p, v, t) && v.At(lead) != 0.0 && v.At(other) != 0.0
    requires EntersThrough(b, p, v, e, lead) && EntersThrough(b, p, v, f, other)
    ensures e == t || f == t
  {
    EnteredOnce(b, p, v, t, lead, e);
    EnteredOnce(b, p, v, t, other, f);
  }

  /** When the point is in the box, every moving axis has crossed the face ahead. */
  lemma EnteredBy(b: Box, p: Vec3, v: Vec3, t: real, axis: nat)
    requires axis < 2 && v.At(axis) != 0.0 && Contains(b, p.Along(v, t))
    ensures Gap(b, p, v, axis) <= Travel(v, axis, t)
  {
    assert p.Along(v, t).At(axis) == Reach(p.At(axis), v.At(axis), t);
    ProductSign(v.At(axis), t);
  }

  lemma NotLeftYet(b: Box, p: Vec3, v: Vec3, t: real, axis: nat, s: real, tolerance: real)
    requires axis < 3 && tolerance >= 0.0 && Contains(b, p.Along(v, t)) && s <= t
    ensures NotLeft(b, p, v, s, tolerance, axis)
  {
    assert p.Along(v, t).At(axis) == Reach(p.At(axis), v.At(axis), t);
    ProductSign(v.At(axis), t);
    if v.At(axis) == 0.0 {
      StillAxis(p.At(axis), v.At(axis));
    } else {
      TimesOrder(AbsReal(v.At(axis)), s, t);
    }
  }

  /** When axis 0 is not registered, the entry is through axis 1. */
  lemma EntryOnOther(b: Aabb, p: Vec3, v: Vec3, t: real, tolerance: real)
    requires tolerance >= 0.0 && EntryAt(b, p, v, t) && !Registered(b, p, v, t, tolerance, 0)
    ensures EntersThrough(b, p, v, t, 1) && Registered(b, p, v, t, tolerance, 1)
  {
    if EntersThrough(b, p, v, t, 0) {
      CrossedAfterGap(b, p, v, 0, t);
    } else {
      CrossedAfterGap(b, p, v, 1, t);
    }
  }

  lemma TimesOrder(speed: real, s: real, t: real)
    requires speed > 0.0
    ensures s < t <==> Product(speed, s) < Product(speed, t)
    ensures s <= t <==> Product(speed, s) <= Product(speed, t)
  {
    ProductOrder(s, t, speed);
    ProductOrder(t, s, speed);
  }

  datatype Scan = Missed | Scanned(entry: Option<real>, exit: Option<real>, axes: set<nat>)

  /** The axis loop of `_first_aabb_hit`; None stands for minus and plus infinity. */
  method ScanAxes(b: Box, p: Vec3, v: Vec3, slack: Slack) returns (r: Scan)
    requires slack.Valid()
    ensures r.Scanned? ==> (r.entry.Some? <==> r.exit.Some?)
    ensures slack.Exact() && r.Missed? ==> forall t :: !EntryAt(b, p, v, t)
    ensures slack.Exact() && r.Scanned? ==>
      ScanExact(b, p, v, 3, r.entry, r.exit, r.axes) && (r.entry.Some? ==> r.entry.value <= r.exit.value)
    ensures v.z == 0.0 && r.Missed? ==>
      forall e, maxTime :: !ReportedAt(b, p, Swept(v, slack.still), e, maxTime, slack.tolerance)
    ensures v.z == 0.0 && r.Scanned? ==> ScanLead(b, p, Swept(v, slack.still), slack.tolerance, 3, r.entry, r.exit, r.axes)
    ensures r.Scanned? && r.entry.Some? ==> r.entry.value <= r.exit.value + slack.tolerance
  {
    var tolerance := slack.tolerance;
    ghost var w := Swept(v, slack.still);
    var entry: Option<real>, exit: Option<real> := None, None;
    var axes: set<nat> := {};
    var axis := 0;
    while axis < 3
      invariant 0 <= axis <= 3
      invariant entry.Some? <==> exit.Some?
      invariant slack.Exact() ==>
        ScanExact(b, p, v, axis, entry, exit, axes) && (entry.Some? ==> entry.value <= exit.value)
      invariant v.z == 0.0 ==> ScanLead(b, p, w, tolerance, axis, entry, exit, axes)
      invariant entry.Some? ==> entry.value <= exit.value + tolerance
    {
      var lo, hi := b.lo.At(axis), b.hi.At(axis);
      var speed, value := v.At(axis), p.At(axis);
      if AbsReal(speed) <= slack.still {
        if v.z == 0.0 {
          LeadStill(b, p, w, tolerance, axis, entry, exit, axes);
        }
        if value < lo - tolerance || value > hi + tolerance {
          if slack.Exact() {
            MissedStillAxis(b, p, v, axis);
          }
          return Missed;
        }
        if slack.Exact() {
          ScanStill(b, p, v, axis, entry, exit, axes);
        }
      } else {
        var first := (lo - value) / speed;
        var second := (hi - value) / speed;
        FaceTimes(b, p, v, axis, first, second);
        var axisEntry := MinReal(first, second);
        var axisExit := MaxReal(first, second);
        ghost var entry0, exit0, axes0 := entry, exit, axes;
        if entry.None? || axisEntry > entry.value + tolerance {
          entry, axes := Some(axisEntry), {axis};
        } else if AbsReal(axisEntry - entry.value) <= tolerance {
          axes := axes + {axis};
        }
        exit := if exit.None? then Some(axisExit) else Some(MinReal(exit.value, axisExit));
        if v.z == 0.0 {
          FaceTimes(b, p, w, axis, first, second);
          LeadMoving(b, p, w, tolerance, axis, entry0, exit0, axes0, axisEntry, axisExit, entry, exit, axes);
        }
        if slack.Exact() {
          ScanMoving(b, p, v, axis, entry0, exit0, axes0, axisEntry, axisExit, entry, exit, axes);
        }
        if entry.value > exit.value + tolerance {
          if v.z == 0.0 {
            LeadEmpty(b, p, w, tolerance, axis + 1, entry, exit, axes);
          }
          if slack.Exact() {
            EmptyWindow(b, p, v, axis + 1, entry, exit, axes);
          }
          return Missed;
        }
      }
      axis := axis + 1;
    }
    return Scanned(entry, exit, axes);
  }

  lemma EmptyWindow(b: Box, p: Vec3, v: Vec3, axis: nat, entry: Option<real>, exit: Option<real>, axes: set<nat>)
    requires axis <= 3 && ScanExact(b, p, v, axis, entry, exit, axes)
    requires entry.Some? && entry.value > exit.value
    ensures forall t :: !EntryAt(b, p, v, t)
  {
    forall t ensures !EntryAt(b, p, v, t) {
      if EntryAt(b, p, v, t) {
        ScanWindow(b, p, v, axis, entry, exit, axes, t);
      }
    }
  }

  /** After the scan the report is decided at the leading crossing alone. */
  lemma LeadDone(b: Box, p: Vec3, v: Vec3, tolerance: real, entry: Option<real>, exit: Option<real>, axes: set<nat>)
    requires tolerance >= 0.0 && v.z == 0.0 && ScanLead(b, p, v, tolerance, 3, entry, exit, axes)
    ensures axes <= {0, 1} && (entry.Some? <==> axes != {})
    ensures forall a: nat | a in axes :: v.At(a) != 0.0 && (entry.Some? ==> Registered(b, p, v, entry.value, tolerance, a))
    ensures forall e, maxTime :: ReportedAt(b, p, v, e, maxTime, tolerance) <==>
      && entry == Some(e) && e - tolerance <= exit.value && -tolerance <= exit.value && MaxReal(0.0, e) <= maxTime + tolerance
      && (e <= tolerance ==> exists a: nat :: a < 2 && a in axes && TouchesInward(b, p, v, a, tolerance))
  {
    if entry.Some? {
      if EntersThrough(b, p, v, entry.value, 0) {
        CrossedAfterGap(b, p, v, 0, entry.value);
      }
      if EntersThrough(b, p, v, entry.value, 1) {
        CrossedAfterGap(b, p, v, 1, entry.value);
      }
      assert Registered(b, p, v, entry.value, tolerance, 0) || Registered(b, p, v, entry.value, tolerance, 1);
      assert 0 in axes || 1 in axes;
    }
    forall e | LeadsAt(b, p, v, e, tolerance) ensures entry == Some(e) {
      if entry.Some? {
        OneLead(b, p, v, tolerance, e, entry.value);
      }
    }
  }

  /** The answer of the collision test on this horizontal motion. */
  ghost predicate Answers(b: Aabb, p: Vec3, v: Vec3, maxTime: real, tolerance: real, r: Option<Hit>) {
    match r
    case None => forall e :: !ReportedAt(b, p, v, e, maxTime, tolerance)
    case Some(hit) => exists e :: ReportedAt(b, p, v, e, maxTime, tolerance) && HitOf(b, p, v, e, tolerance, hit)
  }

  ghost predicate HitOf(b: Aabb, p: Vec3, v: Vec3, e: real, tolerance: real, hit: Hit) {
    hit.time == MaxReal(0.0, e) && forall a: nat :: a in hit.axes <==> a < 2 && Registered(b, p, v, e, tolerance, a)
  }

  /** A reported hit is near the box on every axis, and within the tolerance of a registered face. */
  predicate NearEntry(b: Aabb, p: Vec3, v: Vec3, hit: Hit, tolerance: real) {
    && (forall a: nat | a < 3 :: NearSlab(b, p, v, hit.time, tolerance, a))
    && exists a: nat :: a < 2 && a in hit.axes && NearFaceAhead(b, p, v, hit.time, tolerance, a)
  }

  /** Outside the slab by at most the tolerance, or by what is travelled within the tolerance. */
  predicate NearSlab(b: Aabb, p: Vec3, v: Vec3, h: real, tolerance: real, axis: nat)
    requires axis < 3
  {
    var margin := MaxReal(tolerance, Travel(v, axis, tolerance));
    b.lo.At(axis) - margin <= Reach(p.At(axis), v.At(axis), h) <= b.hi.At(axis) + margin
  }

  predicate NearFaceAhead(b: Aabb, p: Vec3, v: Vec3, h: real, tolerance: real, axis: nat)
    requires axis < 3
  {
    v.At(axis) != 0.0 && AbsReal(Gap(b, p, v, axis) - Travel(v, axis, h)) <= tolerance
  }

  lemma ReportIsNear(b: Box, p: Vec3, v: Vec3, e: real, maxTime: real, tolerance: real, hit: Hit)
    requires tolerance >= 0.0 && v.z == 0.0 && ReportedAt(b, p, v, e, maxTime, tolerance) && HitOf(b, p, v, e, tolerance, hit)
    ensures NearEntry(b, p, v, hit, tolerance)
  {
    assert NotLeft(b, p, v, e - tolerance, tolerance, 2);
    StillNear(b, p, v, e - tolerance, hit.time, tolerance, 2);
    SlabNear(b, p, v, e, tolerance, 0);
    SlabNear(b, p, v, e, tolerance, 1);
    var a := FaceNear(b, p, v, e, maxTime, tolerance);
    assert a in hit.axes;
  }

  /** A later report crosses its leading face then; an immediate one touches a face now. */
  lemma FaceNear(b: Box, p: Vec3, v: Vec3, e: real, maxTime: real, tolerance: real) returns (a: nat)
    requires tolerance >= 0.0 && ReportedAt(b, p, v, e, maxTime, tolerance)
    ensures a < 2 && Registered(b, p, v, e, tolerance, a) && NearFaceAhead(b, p, v, MaxReal(0.0, e), tolerance, a)
  {
    if e > 0.0 {
      a := if EntersThrough(b, p, v, e, 0) then 0 else 1;
      CrossedAfterGap(b, p, v, a, e);
    } else {
      a :| a < 2 && Registered(b, p, v, e, tolerance, a) && TouchesInward(b, p, v, a, tolerance);
      ProductSign(AbsReal(v.At(a)), 0.0);
    }
  }

  lemma StillNear(b: Box, p: Vec3, v: Vec3, s: real, h: real, tolerance: real, axis: nat)
    requires tolerance >= 0.0 && axis < 3 && v.At(axis) == 0.0 && NotLeft(b, p, v, s, tolerance, axis)
    ensures NearSlab(b, p, v, h, tolerance, axis)
  {
    StillAxis(p.At(axis), v.At(axis));
  }

  lemma SlabNear(b: Box, p: Vec3, v: Vec3, e: real, tolerance: real, axis: nat)
    requires tolerance >= 0.0 && axis < 2 && LeadsAt(b, p, v, e, tolerance)
    requires NotLeft(b, p, v, e - tolerance, tolerance, axis) && NotLeft(b, p, v, -tolerance, tolerance, axis)
    ensures NearSlab(b, p, v, MaxReal(0.0, e), tolerance, axis)
  {
    var h := MaxReal(0.0, e);
    if v.At(axis) == 0.0 {
      StillNear(b, p, v, e - tolerance, h, tolerance, axis);
    } else {
      var speed := AbsReal(v.At(axis));
      CrossedAfterGap(b, p, v, axis, e);
      TimesOrder(speed, e - tolerance, h + tolerance);
      TimesOrder(speed, e, h + tolerance);
      TimesOrder(speed, e + tolerance, h + tolerance);
      ProductSum(speed, h, tolerance);
      ProductSum(speed, h, -tolerance);
      ProductSum(speed, tolerance, -tolerance);
      ProductSign(v.At(axis), h);
    }
  }

  /**
   `_first_aabb_hit`.  Without slack it finds exactly the first sideways entry
   in [0, maxTime].  With slack it answers exactly `ReportedAt` for the motion
   without its negligible components.
   */
  method FirstAabbHit(b: Box, p: Vec3, v: Vec3, maxTime: real, slack: Slack) returns (r: Option<Hit>)
    requires slack.Valid()
    ensures r.Some? ==> r.value.time >= 0.0 && r.value.axes != {} && r.value.axes <= {0, 1}
    ensures r.Some? ==> r.value.time <= maxTime + slack.tolerance
    ensures slack.Exact() && r.Some? ==>
      && r.value.time <= maxTime && EntryAt(b, p, v, r.value.time)
      && (forall a | 0 <= a < 2 :: a in r.value.axes <==> EntersThrough(b, p, v, r.value.time, a))
      && (forall t | EntryAt(b, p, v, t) :: t == r.value.time)
    ensures slack.Exact() && r.None? ==> forall t | 0.0 <= t <= maxTime :: !EntryAt(b, p, v, t)
    ensures v.z == 0.0 ==> Answers(b, p, Swept(v, slack.still), maxTime, slack.tolerance, r)
    ensures v.z == 0.0 && r.Some? ==> NearEntry(b, p, Swept(v, slack.still), r.value, slack.tolerance)
  {
    var tolerance := slack.tolerance;
    var scan := ScanAxes(b, p, v, slack);
    if scan.Missed? {
      return None;
    }
    var entry, exit, axes := scan.entry, scan.exit, scan.axes;
    r := JudgeScan(b, p, v, maxTime, tolerance, entry, exit, axes);
    if slack.Exact() {
      JudgedExactly(b, p, v, maxTime, entry, exit, axes, r);
    }
    if v.z == 0.0 {
      JudgedWithSlack(b, p, v, maxTime, slack, entry, exit, axes, r);
    }
  }

  /** The part of `_first_aabb_hit` after its axis loop. */
  method JudgeScan(b: Box, p: Vec3, v: Vec3, maxTime: real, tolerance: real,
                   entry: Option<real>, exit: Option<real>, axes: set<nat>) returns (r: Option<Hit>)
    requires tolerance >= 0.0 && (entry.Some? <==> exit.Some?)
    ensures Judged(b, p, v, maxTime, tolerance, entry, exit, axes, r)
  {
    if entry.Some? && (exit.value < -tolerance || entry.value > maxTime + tolerance) {
      return None;
    }
    var hitTime := if entry.Some? then MaxReal(0.0, entry.value) else 0.0;
    if hitTime > maxTime + tolerance {
      return None;
    }
    var reflecting := set a | a in axes && a in {0, 1};
    assert forall k | k in axes && k < 2 :: k in reflecting;
    if reflecting == {} {
      return None;
    }
    if hitTime <= tolerance {
      var inward := false;
      for a := 0 to 2
        invariant inward <==> exists j: nat :: j < a && j in reflecting && TouchesInward(b, p, v, j, tolerance)
      {
        if a in reflecting {
          if AbsReal(p.At(a) - b.lo.At(a)) <= tolerance && v.At(a) > 0.0 { inward := true; }
          if AbsReal(p.At(a) - b.hi.At(a)) <= tolerance && v.At(a) < 0.0 { inward := true; }
        }
      }
      if !inward {
        return None;
      }
    }
    return Some(Hit(hitTime, reflecting));
  }

  /** A hit in time, on a side face, and from outside if it is immediate. */
  ghost predicate Judged(b: Aabb, p: Vec3, v: Vec3, maxTime: real, tolerance: real,
                         entry: Option<real>, exit: Option<real>, axes: set<nat>, r: Option<Hit>)
    requires entry.Some? ==> exit.Some?
  {
    var h := if entry.Some? then MaxReal(0.0, entry.value) else 0.0;
    && (r.Some? <==>
          && (entry.Some? ==> exit.value >= -tolerance && entry.value <= maxTime + tolerance)
          && h <= maxTime + tolerance && (0 in axes || 1 in axes)
          && (h <= tolerance ==> exists j: nat :: j < 2 && j in axes && TouchesInward(b, p, v, j, tolerance)))
    && (r.Some? ==> r.value.time == h && forall a: nat :: a in r.value.axes <==> a < 2 && a in axes)
  }

  lemma JudgedExactly(b: Box, p: Vec3, v: Vec3, maxTime: real, entry: Option<real>, exit: Option<real>, axes: set<nat>,
                      r: Option<Hit>)
    requires ScanExact(b, p, v, 3, entry, exit, axes) && (entry.Some? ==> entry.value <= exit.value)
    requires Judged(b, p, v, maxTime, 0.0, entry, exit, axes, r)
    ensures r.Some? ==>
      && r.value.time <= maxTime && EntryAt(b, p, v, r.value.time)
      && (forall a | 0 <= a < 2 :: a in r.value.axes <==> EntersThrough(b, p, v, r.value.time, a))
      && (forall t | EntryAt(b, p, v, t) :: t == r.value.time)
    ensures r.None? ==> forall t | 0.0 <= t <= maxTime :: !EntryAt(b, p, v, t)
  {
    ScanDone(b, p, v, entry, exit, axes);
    if entry.Some? && entry.value <= 0.0 && (0 in axes || 1 in axes) {
      var inward := exists j: nat :: j < 2 && j in axes && TouchesInward(b, p, v, j, 0.0);
      InwardMeansNow(b, p, v, entry, exit, axes, inward);
    }
  }

  lemma JudgedWithSlack(b: Box, p: Vec3, v: Vec3, maxTime: real, slack: Slack,
                        entry: Option<real>, exit: Option<real>, axes: set<nat>, r: Option<Hit>)
    requires slack.Valid() && v.z == 0.0
    requires ScanLead(b, p, Swept(v, slack.still), slack.tolerance, 3, entry, exit, axes)
    requires entry.Some? ==> entry.value <= exit.value + slack.tolerance
    requires Judged(b, p, v, maxTime, slack.tolerance, entry, exit, axes, r)
    ensures Answers(b, p, Swept(v, slack.still), maxTime, slack.tolerance, r)
    ensures r.Some? ==> NearEntry(b, p, Swept(v, slack.still), r.value, slack.tolerance)
  {
    var w, tolerance := Swept(v, slack.still), slack.tolerance;
    LeadDone(b, p, w, tolerance, entry, exit, axes);
    assert forall a: nat | a < 2 && a in axes ::
      TouchesInward(b, p, w, a, tolerance) <==> TouchesInward(b, p, v, a, tolerance);
    if r.Some? {
      assert ReportedAt(b, p, w, entry.value, maxTime, tolerance);
      assert HitOf(b, p, w, entry.value, tolerance, r.value);
      ReportIsNear(b, p, w, entry.value, maxTime, tolerance, r.value);
    }
  }

  // -------------------------------------- what the positive slack costs

  /** The point enters the box at time t, and the collision test reports nothing. */
  ghost predicate Lost(b: Aabb, p: Vec3, v: Vec3, t: real, maxTime: real, slack: Slack) {
    EntryAt(b, p, v, t) && forall e :: !ReportedAt(b, p, Swept(v, slack.still), e, maxTime, slack.tolerance)
  }

  predicate SafeSpeed(speed: real, still: real) { speed == 0.0 || still < AbsReal(speed) <= 1.0 }

  /**
   With a positive tolerance, no entry of any box from any start is lost at this
   horizontal velocity exactly when each axis is at rest, or faster than what
   counts as still and no faster than 1.
   */
  lemma NeverLostIff(v: Vec3, slack: Slack, maxTime: real)
    requires slack.Valid() && slack.tolerance > 0.0 && v.z == 0.0 && maxTime >= slack.tolerance
    ensures (forall b: Box, p, t | 0.0 <= t <= maxTime :: !Lost(b, p, v, t, maxTime, slack))
            <==> SafeSpeed(v.x, slack.still) && SafeSpeed(v.y, slack.still)
  {
    var w := Swept(v, slack.still);
    if w != v {
      var axis := if w.x != v.x then 0 else 1;
      var b, p := NegligibleEntryLost(v, axis, slack, maxTime);
      assert 0.0 <= slack.tolerance <= maxTime && Lost(b, p, v, slack.tolerance, maxTime, slack);
    } else if AbsReal(v.x) <= 1.0 && AbsReal(v.y) <= 1.0 {
      forall b: Box, p, t | 0.0 <= t <= maxTime ensures !Lost(b, p, v, t, maxTime, slack) {
        if EntryAt(b, p, v, t) {
          SlowEntryKept(b, p, v, t, slack.tolerance);
          var e := DropLaw(b, p, v, t, maxTime, slack.tolerance);
        }
      }
    } else {
      var axis := if AbsReal(v.x) > 1.0 then 0 else 1;
      var b, p := FastEntryDropped(v, axis, slack.tolerance);
      DroppedIsLost(b, p, v, slack.tolerance, maxTime, slack);
      assert 0.0 <= slack.tolerance <= maxTime && Lost(b, p, v, slack.tolerance, maxTime, slack);
    }
  }

  /** Without negligible components the entries that are lost are the dropped ones. */
  lemma DroppedIsLost(b: Box, p: Vec3, v: Vec3, t: real, maxTime: real, slack: Slack)
    requires slack.Valid() && v.z == 0.0 && Swept(v, slack.still) == v && EntryAt(b, p, v, t) && 0.0 <= t <= maxTime
    ensures Lost(b, p, v, t, maxTime, slack) <==> DropsEntry(b, p, v, t, slack.tolerance)
  {
    var e := DropLaw(b, p, v, t, maxTime, slack.tolerance);
    forall f | LeadsAt(b, p, v, f, slack.tolerance) ensures f == e {
      OneLead(b, p, v, slack.tolerance, f, e);
    }
  }

  /** A face ahead on an axis that is too slow to count, with the other axis inside its slab from the start. */
  lemma NegligibleEntryLost(v: Vec3, axis: nat, slack: Slack, maxTime: real) returns (b: Box, p: Vec3)
    requires slack.Valid() && slack.tolerance > 0.0 && v.z == 0.0
    requires axis < 2 && v.At(axis) != 0.0 && AbsReal(v.At(axis)) <= slack.still
    ensures Lost(b, p, v, slack.tolerance, maxTime, slack)
  {
    var tolerance, w := slack.tolerance, Swept(v, slack.still);
    b, p := WideAhead(v, axis, tolerance);
    var other := 1 - axis;
    forall e ensures !ReportedAt(b, p, w, e, maxTime, tolerance) {
      if LeadsAt(b, p, w, e, tolerance) {
        CrossedAfterGap(b, p, w, other, e);
        TimesOrder(AbsReal(w.At(other)), 0.0, e);
        ProductSign(AbsReal(w.At(other)), 0.0);
        assert !TouchesInward(b, p, w, other, tolerance);
      }
    }
  }

  /** A box whose face on this axis is reached at time `tolerance`, and whose other faces are far away. */
  lemma WideAhead(v: Vec3, axis: nat, tolerance: real) returns (b: Box, p: Vec3)
    requires axis < 2 && v.At(axis) != 0.0 && v.z == 0.0 && tolerance > 0.0
    ensures EntryAt(b, p, v, tolerance) && EntersThrough(b, p, v, tolerance, axis)
    ensures p.At(1 - axis) == 0.0 && b.lo.At(1 - axis) < -tolerance && b.hi.At(1 - axis) > tolerance
  {
    var gap := Travel(v, axis, tolerance);
    var lo := if v.At(axis) > 0.0 then gap else -gap - 1.0;
    var wide := Travel(v, 1 - axis, tolerance) + tolerance + 1.0;
    ProductSign(AbsReal(v.At(1 - axis)), tolerance);
    b := if axis == 0 then Aabb(Vec3(lo, -wide, -1.0), Vec3(lo + 1.0, wide, 1.0))
         else Aabb(Vec3(-wide, lo, -1.0), Vec3(wide, lo + 1.0, 1.0));
    p := Vec3(0.0, 0.0, 0.0);
    CrossedAfterGap(b, p, v, axis, tolerance);
    StillAxis(p.z, v.z);
    ProductSign(v.At(1 - axis), tolerance);
    assert InSlab(b, 1 - axis, p.Along(v, tolerance).At(1 - axis));
  }

  lemma SlowEntryKept(b: Box, p: Vec3, v: Vec3, t: real, tolerance: real)
    requires tolerance > 0.0 && t >= 0.0 && EntryAt(b, p, v, t)
    requires AbsReal(v.x) <= 1.0 && AbsReal(v.y) <= 1.0
    ensures !DropsEntry(b, p, v, t, tolerance)
  {
    var lead := Lead(b, p, v, t, tolerance);
    if lead == 1 {
      EntryOnOther(b, p, v, t, tolerance);
    }
    ShortTravel(v, lead, tolerance);
    TimesOrder(AbsReal(v.At(lead)), -tolerance, t - tolerance);
    assert Travel(v, lead, -tolerance) <= Gap(b, p, v, lead);
  }

  /** At a speed of at most 1 the point travels at most the tolerance within the tolerance. */
  lemma ShortTravel(v: Vec3, axis: nat, s: real)
    requires axis < 3 && s > 0.0
    ensures AbsReal(v.At(axis)) <= 1.0 ==> Travel(v, axis, s) <= s
    ensures AbsReal(v.At(axis)) > 1.0 ==> Travel(v, axis, s) > s
    ensures Travel(v, axis, -s) == -Travel(v, axis, s)
  {
    ProductOrder(AbsReal(v.At(axis)), 1.0, s);
    ProductOrder(1.0, AbsReal(v.At(axis)), s);
  }

  /** More than d inside the box on both horizontal axes. */
  predicate Deep(b: Aabb, p: Vec3, d: real) {
    b.lo.x + d < p.x < b.hi.x - d && b.lo.y + d < p.y < b.hi.y - d && b.lo.z < p.z < b.hi.z
  }

  ghost predicate ShallowUntil(b: Aabb, p: Vec3, v: Vec3, h: real, d: real) {
    forall s | 0.0 <= s <= h :: !Deep(b, p.Along(v, s), d)
  }

  /** Stopping at most the tolerance after an entry, a point with axis speeds of at most 1 is at most that deep. */
  lemma ShallowAfterEntry(b: Box, p: Vec3, v: Vec3, h: real, tolerance: real)
    requires tolerance >= 0.0 && v.z == 0.0 && AbsReal(v.x) <= 1.0 && AbsReal(v.y) <= 1.0 && !StrictlyInside(b, p)
    requires forall t | t >= 0.0 && EntryAt(b, p, v, t) :: h <= t + tolerance
    ensures ShallowUntil(b, p, v, h, tolerance)
  {
    forall s | 0.0 <= s <= h ensures !Deep(b, p.Along(v, s), tolerance) {
      if Deep(b, p.Along(v, s), tolerance) {
        InsideMeansEntered(b, p, v, s);
        var e :| 0.0 <= e <= s && EntryAt(b, p, v, e);
        var axis := if EntersThrough(b, p, v, e, 0) then 0 else 1;
        assert p.Along(v, s).At(axis) == Reach(p.At(axis), v.At(axis), s);
        DepthAfter(v, axis, e, s, tolerance);
      }
    }
  }

  lemma DepthAfter(v: Vec3, axis: nat, e: real, s: real, tolerance: real)
    requires axis < 3 && AbsReal(v.At(axis)) <= 1.0 && e <= s <= e + tolerance
    ensures AbsReal(Product(v.At(axis), s) - Product(v.At(axis), e)) <= tolerance
  {
    ProductSum(v.At(axis), e, s - e);
    if e < s {
      ShortTravel(v, axis, s - e);
      ProductSign(v.At(axis), s - e);
    }
  }

  /** The point reaches a face one tolerance ahead in time; the other axis is inside its slab from the start. */
  lemma FastEntryDropped(v: Vec3, axis: nat, tolerance: real) returns (b: Box, p: Vec3)
    requires axis < 2 && AbsReal(v.At(axis)) > 1.0 && v.z == 0.0 && tolerance > 0.0
    ensures EntryAt(b, p, v, tolerance) && DropsEntry(b, p, v, tolerance, tolerance)
  {
    b, p := WideAhead(v, axis, tolerance);
    ShortTravel(v, axis, tolerance);
    CrossedAfterGap(b, p, v, axis, tolerance);
    ProductSign(AbsReal(v.At(1 - axis)), 0.0);
    ProductSign(AbsReal(v.At(axis)), 0.0);
    assert !Registered(b, p, v, tolerance, tolerance, 1 - axis);
  }

  /** At the source's own tolerances entries are lost at 2 m/s, and at 0.5 m/s with a negligible second component. */
  lemma SourceSlackLoses()
    ensures exists b: Box, p, t :: 0.0 <= t <= 1.0 && Lost(b, p, Vec3(2.0, 0.0, 0.0), t, 1.0, SOURCE_SLACK)
    ensures var v := Vec3(SOURCE_SLACK.still / 2.0, 0.5, 0.0);
      exists b: Box, p, t :: 0.0 <= t <= 1.0 && Lost(b, p, v, t, 1.0, SOURCE_SLACK)
  {
    NeverLostIff(Vec3(2.0, 0.0, 0.0), SOURCE_SLACK, 1.0);
    NeverLostIff(Vec3(SOURCE_SLACK.still / 2.0, 0.5, 0.0), SOURCE_SLACK, 1.0);
  }

  /** Straight at a face of the box, which is still ahead. */
  predicate HeadsFor(b: Aabb, p: Vec3, v: Vec3, axis: nat) {
    && axis < 2 && v.At(axis) != 0.0 && v.At(1 - axis) == 0.0 && v.z == 0.0
    && InSlab(b, 1 - axis, p.At(1 - axis)) && InSlab(b, 2, p.z)
    && Gap(b, p, v, axis) > 0.0
  }

  /** Head-on, an entry is dropped exactly when its gap exceeds the tolerance but is covered within it in time. */
  lemma HeadOnDroppedIff(b: Box, p: Vec3, v: Vec3, axis: nat, tolerance: real) returns (t: real)
    requires HeadsFor(b, p, v, axis) && tolerance >= 0.0
    ensures t > 0.0 && EntryAt(b, p, v, t)
    ensures forall s | EntryAt(b, p, v, s) :: s == t
    ensures DropsEntry(b, p, v, t, tolerance) <==> tolerance < Gap(b, p, v, axis) <= Travel(v, axis, tolerance)
  {
    t := CrossingTime(NearFace(b, axis, v.At(axis)), p.At(axis), v.At(axis));
    var out := CrossingTime(NearFace(b, axis, -v.At(axis)), p.At(axis), v.At(axis));
    CrossedAfterGap(b, p, v, axis, t);
    ProductSign(AbsReal(v.At(axis)), 0.0);
    StillAxis(p.z, v.z);
    StillAxis(p.At(1 - axis), v.At(1 - axis));
    assert !EntersThrough(b, p, v, t, 1 - axis);
    forall s | EntryAt(b, p, v, s) ensures s == t {
      EnteredOnce(b, p, v, s, axis, t);
    }
  }

  /** At time t every axis is strictly inside its slab or just entering it. */
  predicate GoesIn(b: Aabb, p: Vec3, v: Vec3, t: real) {
    forall a: nat | a < 3 :: EntersThrough(b, p, v, t, a) || b.lo.At(a) < Reach(p.At(a), v.At(a), t) < b.hi.At(a)
  }

  /** An entry that does not only graze an edge leads inside right after it, so a lost one is a penetration. */
  lemma EntryPenetrates(b: Box, p: Vec3, v: Vec3, t: real, maxTime: real)
    requires v.z == 0.0 && 0.0 <= t < maxTime && EntryAt(b, p, v, t) && GoesIn(b, p, v, t)
    ensures !StrictlyInside(b, p)
    ensures exists s | t < s <= maxTime :: StrictlyInside(b, p.Along(v, s))
  {
    ReachStart(p.x, v.x);
    ReachStart(p.y, v.y);
    ReachStart(p.z, v.z);
    assert p.Along(v, 0.0) == p;
    ClearBeforeEntry(b, p, v, t);
    var u0 := InsideAfter(b, p, v, 0, t);
    var u1 := InsideAfter(b, p, v, 1, t);
    var u2 := InsideAfter(b, p, v, 2, t);
    var s := (t + MinReal(MinReal(u0, u1), MinReal(u2, maxTime))) / 2.0;
    assert p.Along(v, s).At(0) == Reach(p.x, v.x, s);
    assert StrictlyInside(b, p.Along(v, s));
  }

  /** Until when the coordinate stays strictly inside its slab after t. */
  lemma InsideAfter(b: Box, p: Vec3, v: Vec3, a: nat, t: real) returns (u: real)
    requires a < 3
    requires EntersThrough(b, p, v, t, a) || b.lo.At(a) < Reach(p.At(a), v.At(a), t) < b.hi.At(a)
    ensures t < u && forall s | t < s < u :: b.lo.At(a) < Reach(p.At(a), v.At(a), s) < b.hi.At(a)
  {
    if v.At(a) == 0.0 {
      StillAxis(p.At(a), v.At(a));
      u := t + 1.0;
    } else {
      u := CrossingTime(NearFace(b, a, -v.At(a)), p.At(a), v.At(a));
      forall s | t < s < u ensures b.lo.At(a) < Reach(p.At(a), v.At(a), s) < b.hi.At(a) {
        ReachOrder(p.At(a), v.At(a), t, s);
      }
    }
  }
}
