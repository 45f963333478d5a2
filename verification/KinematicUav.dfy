/**
 The kinematic vehicle of uav_agent/env/kinematic_uav.py: norm-clamped velocity
 commands, bounded-rate pursuit of a goal, and yaw on a circle.
 */
module KinematicUav {
  import opened Common
  import opened Arithmetic
  import opened Geometry

  // --------------------------------------------------------- vector norms

  const ZERO := Vec3(0.0, 0.0, 0.0)

  function Dot(v: Vec3): real { Product(v.x, v.x) + Product(v.y, v.y) + Product(v.z, v.z) }

  function Scaled(v: Vec3, k: real): Vec3 { Vec3(Product(v.x, k), Product(v.y, k), Product(v.z, k)) }

  ghost predicate SameDirection(v: Vec3, w: Vec3) {
    exists k | k > 0.0 :: v == Scaled(w, k)
  }

  /** The Euclidean norm, known by its square. */
  ghost predicate IsNorm(norm: Vec3 -> real) {
    forall v {:trigger Dot(v)} :: norm(v) >= 0.0 && Product(norm(v), norm(v)) == Dot(v)
  }

  lemma SquareRootUnique(a: real, b: real)
    requires a >= 0.0 && b >= 0.0 && Product(a, a) == Product(b, b)
    ensures a == b
  {
    if a < b {
      ProductOrder(a, b, b);
      if a > 0.0 {
        ProductOrder(a, b, a);
      }
    } else if b < a {
      ProductOrder(b, a, a);
      if b > 0.0 {
        ProductOrder(b, a, b);
      }
    }
  }

  lemma SquaresMultiply(a: real, k: real)
    ensures Product(Product(a, k), Product(a, k)) == Product(Product(k, k), Product(a, a))
  {
  }

  lemma DotScaled(v: Vec3, k: real)
    ensures Dot(Scaled(v, k)) == Product(Product(k, k), Dot(v))
  {
    SquaresMultiply(v.x, k);
    SquaresMultiply(v.y, k);
    SquaresMultiply(v.z, k);
    ProductSum(Product(k, k), Product(v.x, v.x), Product(v.y, v.y));
    ProductSum(Product(k, k), Product(v.x, v.x) + Product(v.y, v.y), Product(v.z, v.z));
  }

  lemma NormScaled(norm: Vec3 -> real, v: Vec3, k: real)
    requires IsNorm(norm)
    ensures norm(Scaled(v, k)) == Product(norm(v), AbsReal(k))
  {
    DotScaled(v, k);
    SquaresMultiply(norm(v), AbsReal(k));
    ProductSign(norm(v), AbsReal(k));
    assert Product(AbsReal(k), AbsReal(k)) == Product(k, k);
    SquareRootUnique(norm(Scaled(v, k)), Product(norm(v), AbsReal(k)));
  }

  lemma NormZero(norm: Vec3 -> real)
    requires IsNorm(norm)
    ensures norm(ZERO) == 0.0
  {
    NormScaled(norm, ZERO, 0.0);
    assert Scaled(ZERO, 0.0) == ZERO;
  }

  lemma ScaledTwice(v: Vec3, a: real, b: real)
    ensures Scaled(Scaled(v, a), b) == Scaled(v, Product(a, b))
  {
  }

  /** A vector rescaled to the given length, as `delta / distance * length`. */
  function WithLength(v: Vec3, size: real, length: real): Vec3
    requires size != 0.0
  {
    Scaled(Scaled(v, 1.0 / size), length)
  }

  lemma LengthAsked(norm: Vec3 -> real, v: Vec3, length: real)
    requires IsNorm(norm) && norm(v) > 0.0 && length >= 0.0
    ensures norm(WithLength(v, norm(v), length)) == length
  {
    var size := norm(v);
    DivisionUndone(1.0, size);
    NormScaled(norm, v, 1.0 / size);
    NormScaled(norm, Scaled(v, 1.0 / size), length);
    ReciprocalPositive(size);
  }

  lemma ReciprocalPositive(a: real)
    requires a > 0.0
    ensures 1.0 / a > 0.0 && Product(a, 1.0 / a) == 1.0
  {
  }

  // -------------------------------------------------------------- angles

  /** `_wrap_angle`: Python's % rounds towards minus infinity. */
  function WrapAngle(pi: real, angle: real): (r: real)
    requires pi > 0.0
    ensures -pi <= r < pi
  {
    angle - Multiple(Widths(angle + pi, 2.0 * pi), 2.0 * pi)
  }

  predicate TurnsApart(pi: real, a: real, b: real, n: int) {
    a == b + Multiple(n, 2.0 * pi)
  }

  /** The angles differ by whole turns. */
  ghost predicate Congruent(pi: real, a: real, b: real) {
    exists n: int :: TurnsApart(pi, a, b, n)
  }

  lemma WrapCongruent(pi: real, angle: real)
    requires pi > 0.0
    ensures Congruent(pi, angle, WrapAngle(pi, angle))
  {
    var n := Widths(angle + pi, 2.0 * pi);
    assert TurnsApart(pi, angle, WrapAngle(pi, angle), n);
  }

  /** The only congruent angle in [-pi, pi) is the wrapped one. */
  lemma WrapUnique(pi: real, angle: real, r: real)
    requires pi > 0.0 && Congruent(pi, angle, r) && -pi <= r < pi
    ensures WrapAngle(pi, angle) == r
  {
    var n: int :| TurnsApart(pi, angle, r, n);
    WidthsUnique(angle + pi, 2.0 * pi, n);
  }

  /** Turning by `turn` towards the target takes exactly `turn` off the wrapped error, across the seam too. */
  lemma ErrorAfterTurn(pi: real, target: real, yaw: real, turn: real)
    requires pi > 0.0
    requires -pi <= WrapAngle(pi, target - yaw) - turn < pi
    ensures WrapAngle(pi, target - WrapAngle(pi, yaw + turn)) == WrapAngle(pi, target - yaw) - turn
  {
    var error, next := WrapAngle(pi, target - yaw), WrapAngle(pi, yaw + turn);
    WrapCongruent(pi, target - yaw);
    WrapCongruent(pi, yaw + turn);
    var m: int :| TurnsApart(pi, target - yaw, error, m);
    var n: int :| TurnsApart(pi, yaw + turn, next, n);
    MultipleSum(m, n, 2.0 * pi);
    assert TurnsApart(pi, target - next, error - turn, m + n);
    WrapUnique(pi, target - next, error - turn);
  }

  // ------------------------------------------- reference laws of a run

  /** Distance still to go, and whether navigation is active. */
  datatype Pursuit = Pursuit(distance: real, active: bool)

  function Pursue(s: Pursuit, speed: real, tolerance: real, dt: real): Pursuit {
    if !s.active then s else
      var d := MaxReal(0.0, s.distance - Product(speed, dt));
      Pursuit(d, d > tolerance)
  }

  function PursueAll(s: Pursuit, speed: real, tolerance: real, dts: seq<real>): Pursuit
    decreases |dts|
  {
    if dts == [] then s else PursueAll(Pursue(s, speed, tolerance, dts[0]), speed, tolerance, dts[1..])
  }

  function Total(dts: seq<real>): real {
    if dts == [] then 0.0 else dts[0] + Total(dts[1..])
  }

  predicate AllPositive(dts: seq<real>) { forall i | 0 <= i < |dts| :: dts[i] > 0.0 }

  lemma TotalPositive(dts: seq<real>)
    requires AllPositive(dts)
    ensures Total(dts) >= 0.0
  {
  }

  /**
   However the time is cut into steps, navigation is over exactly when the total
   time has reached (d0 - tolerance) / speed; before that the distance falls at
   `speed`, afterwards it is within the tolerance and never changes.
   */
  lemma {:induction false} PursuitOverTime(d0: real, speed: real, tolerance: real, dts: seq<real>)
    requires d0 > tolerance > 0.0 && speed > 0.0 && AllPositive(dts)
    ensures var end := PursueAll(Pursuit(d0, true), speed, tolerance, dts);
      && (end.active <==> Total(dts) < (d0 - tolerance) / speed)
      && (end.active ==> end.distance == d0 - Product(speed, Total(dts)))
      && (!end.active ==> 0.0 <= end.distance <= tolerance)
      && d0 - Product(speed, Total(dts)) <= end.distance <= d0
  {
    PursuitCourse(d0, speed, tolerance, dts);
    DivisionUndone(d0 - tolerance, speed);
    var limit := (d0 - tolerance) / speed;
    ProductOrder(Total(dts), limit, speed);
    ProductOrder(limit, Total(dts), speed);
    assert Product(limit, speed) == d0 - tolerance && Product(Total(dts), speed) == Product(speed, Total(dts));
  }

  lemma {:induction false} PursuitCourse(d0: real, speed: real, tolerance: real, dts: seq<real>)
    requires d0 > tolerance > 0.0 && speed > 0.0 && AllPositive(dts)
    ensures var end := PursueAll(Pursuit(d0, true), speed, tolerance, dts);
      && (end.active <==> d0 - Product(speed, Total(dts)) > tolerance)
      && (end.active ==> end.distance == d0 - Product(speed, Total(dts)))
      && (!end.active ==> 0.0 <= end.distance <= tolerance)
      && d0 - Product(speed, Total(dts)) <= end.distance <= d0
    decreases |dts|
  {
    if dts != [] {
      var next := Pursue(Pursuit(d0, true), speed, tolerance, dts[0]);
      ProductSum(speed, dts[0], Total(dts[1..]));
      TotalPositive(dts[1..]);
      ProductSign(speed, dts[0]);
      ProductSign(speed, Total(dts[1..]));
      if next.active {
        PursuitCourse(next.distance, speed, tolerance, dts[1..]);
      } else {
        PursuitIdle(next, speed, tolerance, dts[1..]);
      }
    }
  }

  lemma {:induction false} PursuitIdle(s: Pursuit, speed: real, tolerance: real, dts: seq<real>)
    requires !s.active
    ensures PursueAll(s, speed, tolerance, dts) == s
  {
    if dts != [] {
      PursuitIdle(s, speed, tolerance, dts[1..]);
    }
  }

  function TurnError(error: real, limit: real, dt: real): real {
    error - Clip(error, -Product(limit, dt), Product(limit, dt))
  }

  function TurnAll(error: real, limit: real, dts: seq<real>): real
    decreases |dts|
  {
    if dts == [] then error else TurnAll(TurnError(error, limit, dts[0]), limit, dts[1..])
  }

  /** The heading error shrinks by limit * time, keeps its sign, and stops at zero. */
  lemma {:induction false} ErrorOverTime(error: real, limit: real, dts: seq<real>)
    requires limit > 0.0 && AllPositive(dts)
    ensures AbsReal(TurnAll(error, limit, dts)) == MaxReal(0.0, AbsReal(error) - Product(limit, Total(dts)))
    ensures TurnAll(error, limit, dts) == 0.0 || (TurnAll(error, limit, dts) > 0.0 <==> error > 0.0)
    ensures TurnAll(error, limit, dts) == 0.0 <==> Total(dts) >= AbsReal(error) / limit
    decreases |dts|
  {
    DivisionUndone(AbsReal(error), limit);
    TotalPositive(dts);
    var needed := AbsReal(error) / limit;
    ProductOrder(Total(dts), needed, limit);
    ProductOrder(needed, Total(dts), limit);
    assert Product(needed, limit) == AbsReal(error) && Product(Total(dts), limit) == Product(limit, Total(dts));
    if dts != [] {
      ProductSum(limit, dts[0], Total(dts[1..]));
      TotalPositive(dts[1..]);
      ProductSign(limit, dts[0]);
      ProductSign(limit, Total(dts[1..]));
      ErrorOverTime(TurnError(error, limit, dts[0]), limit, dts[1..]);
    }
  }

  // ------------------------------------------------------------ one step

  /** Flying straight at the goal for dt at `length` / dt takes exactly `length * dt` off the distance. */
  lemma FlownTowards(norm: Vec3 -> real, p: Vec3, goal: Vec3, speed: real, dt: real)
    requires IsNorm(norm) && dt > 0.0 && speed >= 0.0
    requires norm(goal.Minus(p)) > 0.0 && Product(speed, dt) <= norm(goal.Minus(p))
    ensures var d := norm(goal.Minus(p)); var p' := p.Along(WithLength(goal.Minus(p), d, speed), dt);
      && norm(goal.Minus(p')) == d - Product(speed, dt)
      && exists f | 0.0 <= f <= 1.0 :: Product(d, f) == Product(speed, dt) && p' == p.Along(goal.Minus(p), f)
  {
    var delta := goal.Minus(p);
    var d := norm(delta);
    var f := Product(1.0 / d, Product(speed, dt));
    ReciprocalPositive(d);
    ScaledTwice(delta, 1.0 / d, speed);
    ScaledTwice(delta, Product(1.0 / d, speed), dt);
    assert Product(Product(1.0 / d, speed), dt) == f;
    var p' := p.Along(WithLength(delta, d, speed), dt);
    assert p' == p.Along(delta, f);
    FractionFlown(d, 1.0 / d, Product(speed, dt));
    LeftOver(p, goal, f);
    NormScaled(norm, delta, 1.0 - f);
  }

  lemma FractionFlown(d: real, reciprocal: real, flown: real)
    requires d > 0.0 && reciprocal > 0.0 && Product(d, reciprocal) == 1.0 && 0.0 <= flown <= d
    ensures var f := Product(reciprocal, flown);
      && 0.0 <= f <= 1.0 && Product(d, f) == flown && Product(d, 1.0 - f) == d - flown
  {
    var f := Product(reciprocal, flown);
    assert Product(d, f) == Product(Product(d, reciprocal), flown);
    ProductSign(reciprocal, flown);
    ProductOrder(flown, d, reciprocal);
    ProductSum(d, 1.0, -f);
    ProductSign(f, d);
  }

  lemma LeftOver(p: Vec3, goal: Vec3, f: real)
    ensures goal.Minus(p.Along(goal.Minus(p), f)) == Scaled(goal.Minus(p), 1.0 - f)
  {
    ComponentLeft(p.x, goal.x, f);
    ComponentLeft(p.y, goal.y, f);
    ComponentLeft(p.z, goal.z, f);
  }

  lemma ComponentLeft(p: real, goal: real, f: real)
    ensures goal - Reach(p, goal - p, f) == Product(goal - p, 1.0 - f)
  {
  }

  /** Clipping the rate error/dt and applying it for dt is clipping the turn itself. */
  lemma RateApplied(error: real, limit: real, dt: real)
    requires dt > 0.0 && limit > 0.0
    ensures Product(Clip(error / dt, -limit, limit), dt) == Clip(error, -Product(limit, dt), Product(limit, dt))
  {
    var rate := error / dt;
    DivisionUndone(error, dt);
    ProductOrder(rate, -limit, dt);
    ProductOrder(-limit, rate, dt);
    ProductOrder(rate, limit, dt);
    ProductOrder(limit, rate, dt);
    ProductSign(limit, dt);
  }

  /** The bounded-rate turn of one step: its rate, and the yaw it leads to. */
  method TurnTowards(pi: real, target: real, yaw: real, limit: real, dt: real) returns (rate: real, next: real)
    requires pi > 0.0 && limit > 0.0 && dt > 0.0
    ensures -pi <= next < pi && AbsReal(rate) <= limit
    ensures WrapAngle(pi, target - next) == TurnError(WrapAngle(pi, target - yaw), limit, dt)
    ensures next == WrapAngle(pi, yaw + Product(rate, dt))
  {
    var error := WrapAngle(pi, target - yaw);
    rate := Clip(error / dt, -limit, limit);
    RateApplied(error, limit, dt);
    ProductSign(limit, dt);
    ErrorAfterTurn(pi, target, yaw, Product(rate, dt));
    next := WrapAngle(pi, yaw + Product(rate, dt));
  }

  predicate PositiveIfGiven(value: Option<real>) { value.Some? ==> value.value > 0.0 }

  function Capped(value: Option<real>, cap: real): real {
    if value.Some? then MinReal(value.value, cap) else cap
  }

  class Vehicle {
    const maxSpeed: real
    const maxYawRate: real
    const goalTolerance: real
    const pi: real
    const norm: Vec3 -> real            // numpy.linalg.norm
    const bearing: (real, real) -> real // atan2(dy, dx)
    const pointless: real               // 1e-12: too short to have a bearing
    const yawReached: real              // 1e-9
    var position: Vec3
    var yaw: real
    var velocity: Vec3
    var yawRate: real
    var goal: Option<Vec3>
    var goalSpeed: real
    var activeTolerance: real
    var navigating: bool
    var faceGoal: bool
    var yawTarget: Option<real>
    var facePoint: Option<Vec3>
    var yawLimit: real

    /** The fixed parameters; no method can change them. */
    ghost predicate Configured() {
      && IsNorm(norm) && pi > 0.0
      && maxSpeed > 0.0 && maxYawRate > 0.0 && goalTolerance > 0.0
    }

    function Distance(): real
      reads `goal, `position
      requires goal.Some?
    {
      norm(goal.value.Minus(position))
    }

    /** Navigation is on exactly while a kept goal is out of tolerance; once off, the vehicle stands still. */
    ghost predicate Valid()
      reads this
      requires Configured()
    {
      && norm(velocity) <= maxSpeed && AbsReal(yawRate) <= maxYawRate
      && 0.0 < goalSpeed <= maxSpeed && activeTolerance > 0.0
      && 0.0 < yawLimit <= maxYawRate
      && -pi <= yaw < pi
      && (goal.None? ==> !navigating)
      && (goal.Some? ==> (navigating <==> Distance() > activeTolerance))
      && (goal.Some? && !navigating ==> velocity == ZERO)
    }

    function PursuitState(): Pursuit
      reads this
      requires goal.Some?
    {
      Pursuit(Distance(), navigating)
    }

    constructor (start: Vec3, heading: real, maxSpeed: real, maxYawRate: real, goalTolerance: real, pi: real,
                 norm: Vec3 -> real, bearing: (real, real) -> real, pointless: real, yawReached: real)
      requires IsNorm(norm) && pi > 0.0 && maxSpeed > 0.0 && maxYawRate > 0.0 && goalTolerance > 0.0
      ensures Configured() && Valid()
      ensures position == start && yaw == WrapAngle(pi, heading) && velocity == ZERO && goal.None?
    {
      this.maxSpeed, this.maxYawRate, this.goalTolerance := maxSpeed, maxYawRate, goalTolerance;
      this.pi, this.norm, this.bearing, this.pointless, this.yawReached := pi, norm, bearing, pointless, yawReached;
      position, yaw, velocity, yawRate := start, WrapAngle(pi, heading), ZERO, 0.0;
      goal, goalSpeed, activeTolerance, navigating := None, maxSpeed, goalTolerance, false;
      faceGoal, yawTarget, facePoint, yawLimit := true, None, None, maxYawRate;
      NormZero(norm);
    }

    method SetPose(p: Vec3, heading: real)
      requires Configured() && Valid()
      modifies this
      ensures Valid() && position == p && yaw == WrapAngle(pi, heading)
      ensures velocity == ZERO && yawRate == 0.0 && goal.None? && yawTarget.None? && facePoint.None?
      ensures activeTolerance == goalTolerance && yawLimit == maxYawRate && !navigating
      ensures goalSpeed == old(goalSpeed) && faceGoal == old(faceGoal)
    {
      position, yaw := p, WrapAngle(pi, heading);
      Stop();
    }

    method Stop()
      requires Configured() && 0.0 < goalSpeed <= maxSpeed && -pi <= yaw < pi
      modifies this
      ensures Valid() && position == old(position) && yaw == old(yaw)
      ensures velocity == ZERO && yawRate == 0.0 && goal.None? && yawTarget.None? && facePoint.None?
      ensures activeTolerance == goalTolerance && yawLimit == maxYawRate && !navigating
      ensures goalSpeed == old(goalSpeed) && faceGoal == old(faceGoal)
    {
      velocity, yawRate, goal, activeTolerance, navigating := ZERO, 0.0, None, goalTolerance, false;
      yawTarget, facePoint, yawLimit := None, None, maxYawRate;
      NormZero(norm);
    }

    /** `set_velocity`: the command keeps its direction and is shortened to the speed limit if it exceeds it. */
    method SetVelocity(command: Vec3, rate: real)
      requires Configured() && Valid()
      modifies this
      ensures Valid() && position == old(position) && yaw == old(yaw)
      ensures norm(command) <= maxSpeed ==> velocity == command
      ensures norm(command) > maxSpeed ==>
        norm(velocity) == maxSpeed && SameDirection(velocity, command)
      ensures yawRate == Clip(rate, -maxYawRate, maxYawRate) && goal.None? && yawTarget.None? && facePoint.None?
      ensures activeTolerance == goalTolerance && yawLimit == maxYawRate && !navigating
      ensures goalSpeed == old(goalSpeed) && faceGoal == old(faceGoal)
    {
      var v := command;
      var size := norm(command);
      if size > maxSpeed {
        v := Scaled(command, maxSpeed / size);
        DivisionUndone(maxSpeed, size);
        NormScaled(norm, command, maxSpeed / size);
        RatioBetween(maxSpeed, size);
      }
      velocity, yawRate := v, Clip(rate, -maxYawRate, maxYawRate);
      goal, activeTolerance, navigating := None, goalTolerance, false;
      yawTarget, facePoint, yawLimit := None, None, maxYawRate;
    }

    /** `delta / distance * speed`: the direction of delta at the given speed. */
    method VelocityAlong(delta: Vec3, speed: real) returns (v: Vec3)
      requires Configured() && norm(delta) > 0.0 && speed > 0.0
      ensures norm(v) == speed
      ensures SameDirection(v, delta)
    {
      var distance := norm(delta);
      v := WithLength(delta, distance, speed);
      LengthAsked(norm, delta, speed);
      ReciprocalPositive(distance);
      ScaledTwice(delta, 1.0 / distance, speed);
      ProductOrder(0.0, 1.0 / distance, speed);
    }

    /** Towards a goal out of tolerance at the given speed, otherwise at rest. */
    method FirstVelocity(delta: Vec3, tolerance: real, speed: real) returns (active: bool, v: Vec3)
      requires Configured() && tolerance > 0.0 && speed > 0.0
      ensures active <==> norm(delta) > tolerance
      ensures active ==> norm(v) == speed && SameDirection(v, delta)
      ensures !active ==> v == ZERO && norm(v) == 0.0
    {
      active, v := norm(delta) > tolerance, ZERO;
      if active {
        v := VelocityAlong(delta, speed);
      } else {
        NormZero(norm);
      }
    }

    /** `move_toward`; a non-positive optional argument is refused with nothing changed. */
    method MoveToward(target: Vec3, speed: Option<real>, face: bool, tolerance: Option<real>, rateLimit: Option<real>)
      returns (ok: bool)
      requires Configured() && Valid()
      modifies this
      ensures Valid() && position == old(position) && yaw == old(yaw)
      ensures ok <==> PositiveIfGiven(speed) && PositiveIfGiven(tolerance) && PositiveIfGiven(rateLimit)
      ensures !ok ==> velocity == old(velocity) && goal == old(goal) && navigating == old(navigating)
                      && yawTarget == old(yawTarget) && facePoint == old(facePoint) && yawRate == old(yawRate)
                      && goalSpeed == old(goalSpeed) && activeTolerance == old(activeTolerance)
                      && faceGoal == old(faceGoal) && yawLimit == old(yawLimit)
      ensures ok ==> goal == Some(target) && goalSpeed == Capped(speed, maxSpeed) && faceGoal == face
                     && activeTolerance == (if tolerance.Some? then tolerance.value else goalTolerance)
                     && yawLimit == Capped(rateLimit, maxYawRate) && yawRate == 0.0 && facePoint.None?
                     && norm(velocity) == (if navigating then goalSpeed else 0.0)
      ensures ok && navigating ==> SameDirection(velocity, target.Minus(position))
      ensures ok ==> yawTarget == if navigating && face then Bearing(target.Minus(position)) else None
    {
      if !PositiveIfGiven(speed) || !PositiveIfGiven(tolerance) || !PositiveIfGiven(rateLimit) {
        return false;
      }
      SetGoal(target, Capped(speed, maxSpeed), face, if tolerance.Some? then tolerance.value else goalTolerance,
              Capped(rateLimit, maxYawRate));
      return true;
    }

    /** The state change of an accepted `move_toward`. */
    method SetGoal(target: Vec3, speed: real, face: bool, tolerance: real, rateLimit: real)
      requires Configured() && Valid() && 0.0 < speed <= maxSpeed && tolerance > 0.0 && 0.0 < rateLimit <= maxYawRate
      modifies `velocity, `yawRate, `goal, `goalSpeed, `activeTolerance, `navigating, `faceGoal, `yawTarget, `facePoint, `yawLimit
      ensures Valid()
      ensures goal == Some(target) && goalSpeed == speed && faceGoal == face && activeTolerance == tolerance
      ensures yawLimit == rateLimit && yawRate == 0.0 && facePoint.None?
      ensures norm(velocity) == (if navigating then goalSpeed else 0.0)
      ensures navigating ==> SameDirection(velocity, target.Minus(position))
      ensures yawTarget == if navigating && face then Bearing(target.Minus(position)) else None
    {
      var delta := target.Minus(position);
      var active, v := FirstVelocity(delta, tolerance, speed);
      goal, goalSpeed, activeTolerance, navigating, velocity := Some(target), speed, tolerance, active, v;
      AimYaw(delta, face, rateLimit);
    }

    /** The yaw command that comes with a goal: its bearing if the vehicle is to face it, otherwise none. */
    method AimYaw(delta: Vec3, face: bool, rateLimit: real)
      requires Configured() && 0.0 < rateLimit <= maxYawRate
      modifies `yawRate, `faceGoal, `yawTarget, `facePoint, `yawLimit
      ensures yawTarget == if navigating && face then Bearing(delta) else None
      ensures faceGoal == face && yawLimit == rateLimit && yawRate == 0.0 && facePoint.None?
    {
      yawTarget := if navigating && face then Bearing(delta) else None;
      faceGoal, yawRate, facePoint, yawLimit := face, 0.0, None, rateLimit;
    }

    /** The direction of a displacement, if it is long enough to have one. */
    function Bearing(delta: Vec3): Option<real> {
      if norm(Vec3(delta.x, delta.y, 0.0)) > pointless then Some(bearing(delta.x, delta.y)) else None
    }

    method RotateYaw(target: real, relative: bool, rateLimit: Option<real>) returns (ok: bool)
      requires Configured() && Valid()
      modifies `yawTarget, `facePoint, `yawLimit, `yawRate, `faceGoal
      ensures Valid()
      ensures ok <==> PositiveIfGiven(rateLimit)
      ensures !ok ==> yawTarget == old(yawTarget) && facePoint == old(facePoint) && yawLimit == old(yawLimit)
                      && yawRate == old(yawRate) && faceGoal == old(faceGoal)
      ensures ok ==> yawTarget == Some(WrapAngle(pi, if relative then target + yaw else target))
                     && facePoint.None? && yawLimit == Capped(rateLimit, maxYawRate) && yawRate == 0.0 && !faceGoal
    {
      if !PositiveIfGiven(rateLimit) {
        return false;
      }
      yawTarget := Some(WrapAngle(pi, if relative then target + yaw else target));
      facePoint, yawLimit, yawRate, faceGoal := None, Capped(rateLimit, maxYawRate), 0.0, false;
      return true;
    }

    method FacePoint(point: Vec3, rateLimit: Option<real>) returns (ok: bool)
      requires Configured() && Valid()
      modifies `yawTarget, `facePoint, `yawLimit, `yawRate, `faceGoal
      ensures Valid()
      ensures ok <==> PositiveIfGiven(rateLimit)
      ensures !ok ==> yawTarget == old(yawTarget) && facePoint == old(facePoint) && yawLimit == old(yawLimit)
                      && yawRate == old(yawRate) && faceGoal == old(faceGoal)
      ensures ok ==> facePoint == Some(point) && yawTarget == Some(WrapAngle(pi, BearingFrom(position, point)))
                     && yawLimit == Capped(rateLimit, maxYawRate) && yawRate == 0.0 && !faceGoal
    {
      if !PositiveIfGiven(rateLimit) {
        return false;
      }
      facePoint := Some(point);
      yawTarget := Some(WrapAngle(pi, BearingFrom(position, point)));
      yawLimit, yawRate, faceGoal := Capped(rateLimit, maxYawRate), 0.0, false;
      return true;
    }

    /** The yaw that faces a point; straight above or below it, the current yaw. */
    function BearingFrom(from: Vec3, point: Vec3): real
      reads `yaw
    {
      var direction := Bearing(point.Minus(from));
      if direction.Some? then direction.value else yaw
    }

    /** The translation half of `step`. */
    method Translate(dt: real)
      requires Configured() && Valid() && dt > 0.0
      modifies `position, `velocity, `navigating, `yawTarget
      ensures Valid()
      ensures goal.Some? ==> PursuitState() == Pursue(old(PursuitState()), goalSpeed, activeTolerance, dt)
      ensures old(navigating) ==> exists f | 0.0 <= f <= 1.0 ::
        && Product(old(Distance()), f) == MinReal(old(Distance()), Product(goalSpeed, dt))
        && position == old(position).Along(goal.value.Minus(old(position)), f)
      ensures old(navigating) ==> norm(velocity) == if navigating then goalSpeed else 0.0
      ensures old(navigating) && navigating ==> position == old(position).Along(velocity, dt)
      ensures old(navigating) && !navigating ==> velocity == ZERO
      ensures !old(navigating) ==> position == old(position).Along(old(velocity), dt) && velocity == old(velocity)
      ensures goal.Some? && !old(navigating) ==> position == old(position)
      ensures yawTarget == (if old(navigating) && faceGoal && Bearing(goal.value.Minus(old(position))).Some?
                            then Bearing(goal.value.Minus(old(position))) else old(yawTarget))
    {
      if navigating {
        var delta := goal.value.Minus(position);
        var distance := norm(delta);
        // the invariant rules out a goal already within tolerance here
        var speed := MinReal(MinReal(goalSpeed, maxSpeed), distance / dt);
        NoOvershoot(goalSpeed, distance, dt);
        FlownTowards(norm, position, goal.value, speed, dt);
        LengthAsked(norm, delta, speed);
        velocity := WithLength(delta, distance, speed);
        if faceGoal && Bearing(delta).Some? {
          yawTarget := Bearing(delta);
        }
      } else if goal.Some? {
        Standing(position, dt);
      }
      position := position.Along(velocity, dt);
      if navigating && norm(goal.value.Minus(position)) <= activeTolerance {
        navigating, velocity := false, ZERO;
        NormZero(norm);
      }
    }

    /** The yaw half of `step`, from the new position. */
    method Turn(dt: real)
      requires Configured() && Valid() && dt > 0.0
      modifies `yaw, `yawRate, `yawTarget
      ensures Valid()
      ensures yawTarget == if facePoint.Some? then Some(old(BearingFrom(position, facePoint.value))) else old(yawTarget)
      ensures yawTarget.Some? ==>
        && WrapAngle(pi, yawTarget.value - yaw) ==
             TurnError(WrapAngle(pi, yawTarget.value - old(yaw)), yawLimit, dt)
        && AbsReal(yawRate) <= yawLimit
        && (if AbsReal(WrapAngle(pi, yawTarget.value - yaw)) <= yawReached then yawRate == 0.0
            else yaw == WrapAngle(pi, old(yaw) + Product(yawRate, dt)))
      ensures yawTarget.None? ==> yaw == WrapAngle(pi, old(yaw) + Product(yawRate, dt)) && yawRate == old(yawRate)
    {
      if facePoint.Some? {
        yawTarget := Some(BearingFrom(position, facePoint.value));
      }
      TurnYaw(dt);
    }

    /** Towards the yaw target in force at the limited rate, or on at the current rate. */
    method TurnYaw(dt: real)
      requires Configured() && Valid() && dt > 0.0
      modifies `yaw, `yawRate
      ensures Valid()
      ensures yawTarget.Some? ==>
        && WrapAngle(pi, yawTarget.value - yaw) == TurnError(WrapAngle(pi, yawTarget.value - old(yaw)), yawLimit, dt)
        && AbsReal(yawRate) <= yawLimit
        && (if AbsReal(WrapAngle(pi, yawTarget.value - yaw)) <= yawReached then yawRate == 0.0
            else yaw == WrapAngle(pi, old(yaw) + Product(yawRate, dt)))
      ensures yawTarget.None? ==> yaw == WrapAngle(pi, old(yaw) + Product(yawRate, dt)) && yawRate == old(yawRate)
    {
      if yawTarget.Some? {
        yawRate, yaw := TurnTowards(pi, yawTarget.value, yaw, yawLimit, dt);
        if AbsReal(WrapAngle(pi, yawTarget.value - yaw)) <= yawReached {
          yawRate := 0.0;
        }
      } else {
        yaw := WrapAngle(pi, yaw + Product(yawRate, dt));
      }
    }

    /** `step`. */
    method Step(dt: real)
      requires Configured() && Valid() && dt > 0.0
      modifies `position, `velocity, `navigating, `yaw, `yawRate, `yawTarget
      ensures Valid()
      ensures goal.Some? ==> PursuitState() == Pursue(old(PursuitState()), goalSpeed, activeTolerance, dt)
      ensures old(navigating) ==> exists f | 0.0 <= f <= 1.0 ::
        && Product(old(Distance()), f) == MinReal(old(Distance()), Product(goalSpeed, dt))
        && position == old(position).Along(goal.value.Minus(old(position)), f)
      ensures old(navigating) ==> norm(velocity) == if navigating then goalSpeed else 0.0
      ensures old(navigating) && navigating ==> position == old(position).Along(velocity, dt)
      ensures old(navigating) && !navigating ==> velocity == ZERO
      ensures !old(navigating) ==> position == old(position).Along(old(velocity), dt) && velocity == old(velocity)
      ensures goal.Some? && !old(navigating) ==> position == old(position)
      ensures facePoint.None? && !(old(navigating) && faceGoal) ==> yawTarget == old(yawTarget)
      ensures facePoint.Some? ==>
        yawTarget == Some(match Bearing(facePoint.value.Minus(position)) case Some(b) => b case None => old(yaw))
      ensures facePoint.None? && old(navigating) && faceGoal ==>
        yawTarget == match Bearing(goal.value.Minus(old(position))) case Some(b) => Some(b) case None => old(yawTarget)
      ensures yawTarget.Some? ==>
        && WrapAngle(pi, yawTarget.value - yaw) == TurnError(WrapAngle(pi, yawTarget.value - old(yaw)), yawLimit, dt)
        && AbsReal(yawRate) <= yawLimit
        && (if AbsReal(WrapAngle(pi, yawTarget.value - yaw)) <= yawReached then yawRate == 0.0
            else yaw == WrapAngle(pi, old(yaw) + Product(yawRate, dt)))
      ensures yawTarget.None? ==> yaw == WrapAngle(pi, old(yaw) + Product(yawRate, dt)) && yawRate == old(yawRate)
    {
      Translate(dt);
      Turn(dt);
    }

    /**
     Steps towards a goal, however the time is cut: the vehicle is under way
     exactly until the total time reaches (distance - tolerance) / speed, flies
     straight at the goal at the goal speed until then, and stands within the
     tolerance ever after.
     */
    method Fly(dts: seq<real>)
      requires Configured() && Valid() && goal.Some? && AllPositive(dts)
      modifies `position, `velocity, `navigating, `yaw, `yawRate, `yawTarget
      ensures Valid()
      ensures PursuitState() == PursueAll(old(PursuitState()), goalSpeed, activeTolerance, dts)
      ensures old(navigating) ==>
        && (navigating <==> Total(dts) < (old(Distance()) - activeTolerance) / goalSpeed)
        && (navigating ==> Distance() == old(Distance()) - Product(goalSpeed, Total(dts)))
      ensures !navigating ==> Distance() <= activeTolerance && velocity == ZERO
      ensures !old(navigating) ==> !navigating && position == old(position)
      ensures OnSegment(position, old(position), goal.value)
    {
      StartOfSegment(position, goal.value);
      for i := 0 to |dts|
        invariant Valid()
        invariant PursueAll(PursuitState(), goalSpeed, activeTolerance, dts[i..]) ==
                  PursueAll(old(PursuitState()), goalSpeed, activeTolerance, dts)
        invariant !old(navigating) ==> !navigating && position == old(position)
        invariant OnSegment(position, old(position), goal.value)
      {
        ghost var before := position;
        Step(dts[i]);
        assert OnSegment(position, before, goal.value) by {
          StartOfSegment(before, goal.value);
        }
        SegmentWithin(position, before, old(position), goal.value);
        assert dts[i..][1..] == dts[i + 1..];
      }
      if old(navigating) {
        PursuitOverTime(old(Distance()), goalSpeed, activeTolerance, dts);
      }
    }

    /**
     Steps towards a fixed yaw target, however the time is cut: the heading
     error keeps its sign and shrinks at the rate limit, and is gone with the
     vehicle no longer turning exactly from |error| / limit on.
     */
    method TurnToTarget(dts: seq<real>)
      requires Configured() && Valid() && AllPositive(dts)
      requires yawTarget.Some? && facePoint.None? && !(navigating && faceGoal)
      modifies `position, `velocity, `navigating, `yaw, `yawRate, `yawTarget
      ensures Valid() && yawTarget == old(yawTarget)
      ensures var e0, e := WrapAngle(pi, yawTarget.value - old(yaw)), WrapAngle(pi, yawTarget.value - yaw);
        && e == TurnAll(e0, yawLimit, dts)
        && AbsReal(e) == MaxReal(0.0, AbsReal(e0) - Product(yawLimit, Total(dts)))
        && (e == 0.0 || (e > 0.0 <==> e0 > 0.0))
        && (e == 0.0 <==> Total(dts) >= AbsReal(e0) / yawLimit)
        && (e == 0.0 && dts != [] && yawReached >= 0.0 ==> yawRate == 0.0)
    {
      ghost var e0 := WrapAngle(pi, yawTarget.value - yaw);
      for i := 0 to |dts|
        invariant Valid() && yawTarget == old(yawTarget) && !(navigating && faceGoal)
        invariant TurnAll(WrapAngle(pi, yawTarget.value - yaw), yawLimit, dts[i..]) == TurnAll(e0, yawLimit, dts)
        invariant i > 0 && AbsReal(WrapAngle(pi, yawTarget.value - yaw)) <= yawReached ==> yawRate == 0.0
      {
        Step(dts[i]);
        assert dts[i..][1..] == dts[i + 1..];
      }
      ErrorOverTime(e0, yawLimit, dts);
    }
  }

  /** On the straight line from one point to another, not beyond either. */
  ghost predicate OnSegment(at: Vec3, from: Vec3, to: Vec3) {
    exists f: real | 0.0 <= f <= 1.0 :: at == from.Along(to.Minus(from), f)
  }

  lemma StartOfSegment(from: Vec3, to: Vec3)
    ensures OnSegment(from, from, to)
  {
    assert from == from.Along(to.Minus(from), 0.0);
  }

  /** Going on along the rest of a segment stays on the segment. */
  lemma SegmentWithin(at: Vec3, between: Vec3, from: Vec3, to: Vec3)
    requires OnSegment(between, from, to) && OnSegment(at, between, to)
    ensures OnSegment(at, from, to)
  {
    var f: real :| 0.0 <= f <= 1.0 && between == from.Along(to.Minus(from), f);
    var g: real :| 0.0 <= g <= 1.0 && at == between.Along(to.Minus(between), g);
    var h := f + Product(1.0 - f, g);
    ProductSign(1.0 - f, g);
    ProductSign(1.0 - f, 1.0 - g);
    ProductSum(1.0 - f, g, 1.0 - g);
    FractionsJoin(from.x, to.x, f, g);
    FractionsJoin(from.y, to.y, f, g);
    FractionsJoin(from.z, to.z, f, g);
    assert at == from.Along(to.Minus(from), h);
  }

  lemma FractionsJoin(from: real, to: real, f: real, g: real)
    ensures var between := Reach(from, to - from, f);
      Reach(between, to - between, g) == Reach(from, to - from, f + Product(1.0 - f, g))
  {
  }

  lemma RatioBetween(a: real, b: real)
    requires 0.0 < a < b
    ensures 0.0 < a / b < 1.0
  {
    DivisionUndone(a, b);
    ProductOrder(1.0, a / b, b);
    ProductOrder(a / b, 0.0, b);
  }

  lemma NoOvershoot(speed: real, distance: real, dt: real)
    requires speed > 0.0 && distance > 0.0 && dt > 0.0
    ensures var used := MinReal(speed, distance / dt);
      used >= 0.0 && Product(used, dt) == MinReal(distance, Product(speed, dt))
      && (Product(speed, dt) < distance ==> used == speed)
  {
    DivisionUndone(distance, dt);
    ProductOrder(speed, distance / dt, dt);
    ProductOrder(distance / dt, speed, dt);
    ProductOrder(distance / dt, 0.0, dt);
  }

  lemma Standing(p: Vec3, dt: real)
    ensures p.Along(ZERO, dt) == p
  {
  }
}
