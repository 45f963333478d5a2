/**
 Obstacle boxes, the closed-segment slab test and the swept flight corridor
 of uav_agent/common/obstacle_types.py, over exact reals.
 */
module Geometry {
  import opened Common
  import opened Arithmetic

  datatype Vec3 = Vec3(x: real, y: real, z: real) {
    /** Component by axis number, as the source indexes its triples. */
    function At(axis: nat): real
      requires axis < 3
    {
      if axis == 0 then x else if axis == 1 then y else z
    }

    function Plus(d: Vec3): Vec3 { Vec3(x + d.x, y + d.y, z + d.z) }

    function Minus(d: Vec3): Vec3 { Vec3(x - d.x, y - d.y, z - d.z) }

    /** The point reached from here after fraction (or time) s along d. */
    function Along(d: Vec3, s: real): Vec3 {
      Vec3(Reach(x, d.x, s), Reach(y, d.y, s), Reach(z, d.z, s))
    }
  }

  function Reach(value: real, rate: real, s: real): real { value + Product(rate, s) }

  function Cube(half: real): Vec3 { Vec3(half, half, half) }

  // ----------------------------------------------------------------- boxes

  datatype Aabb = Aabb(lo: Vec3, hi: Vec3)

  /** Closed axis-aligned box; the source refuses a box without positive size. */
  type Box = b: Aabb | b.lo.x < b.hi.x && b.lo.y < b.hi.y && b.lo.z < b.hi.z
    witness Aabb(Vec3(0.0, 0.0, 0.0), Vec3(1.0, 1.0, 1.0))

  predicate InSlab(b: Aabb, axis: nat, value: real)
    requires axis < 3
  {
    b.lo.At(axis) <= value <= b.hi.At(axis)
  }

  predicate Contains(b: Aabb, p: Vec3) {
    InSlab(b, 0, p.x) && InSlab(b, 1, p.y) && InSlab(b, 2, p.z)
  }

  /** `contains(point, strict=True)`. */
  predicate StrictlyInside(b: Aabb, p: Vec3) {
    b.lo.x < p.x < b.hi.x && b.lo.y < p.y < b.hi.y && b.lo.z < p.z < b.hi.z
  }

  predicate Overlap(a: Aabb, b: Aabb) {
    && a.lo.x <= b.hi.x && b.lo.x <= a.hi.x
    && a.lo.y <= b.hi.y && b.lo.y <= a.hi.y
    && a.lo.z <= b.hi.z && b.lo.z <= a.hi.z
  }

  predicate Within(a: Aabb, b: Aabb) {
    && b.lo.x <= a.lo.x && a.hi.x <= b.hi.x
    && b.lo.y <= a.lo.y && a.hi.y <= b.hi.y
    && b.lo.z <= a.lo.z && a.hi.z <= b.hi.z
  }

  /**
   `expanded`: a point is in the grown box exactly when the body of that
   half-extent centred at the point overlaps the original box.
   */
  function Expanded(b: Box, extent: Vec3): (r: Option<Box>)
    ensures r.None? <==> extent.x < 0.0 || extent.y < 0.0 || extent.z < 0.0
    ensures r.Some? ==> forall p :: Contains(r.value, p) <==> Overlap(b, Aabb(p.Minus(extent), p.Plus(extent)))
  {
    if extent.x < 0.0 || extent.y < 0.0 || extent.z < 0.0 then None
    else Some(Aabb(b.lo.Minus(extent), b.hi.Plus(extent)))
  }

  // ------------------------------------------------------------- slab test

  /** A displacement component the slab test treats as "not moving". */
  function Effective(delta: real, tolerance: real): real {
    if AbsReal(delta) <= tolerance then 0.0 else delta
  }

  /** The displacement the slab test really sweeps: negligible components are dropped. */
  function Swept(d: Vec3, tolerance: real): Vec3 {
    Vec3(Effective(d.x, tolerance), Effective(d.y, tolerance), Effective(d.z, tolerance))
  }

  predicate HitsAt(b: Aabb, start: Vec3, d: Vec3, s: real) {
    0.0 <= s <= 1.0 && Contains(b, start.Along(d, s))
  }

  ghost predicate Meets(b: Aabb, start: Vec3, d: Vec3) {
    exists s :: HitsAt(b, start, d, s)
  }

  ghost predicate IsFirstHit(b: Aabb, start: Vec3, d: Vec3, s: real) {
    HitsAt(b, start, d, s) && forall s' :: HitsAt(b, start, d, s') ==> s <= s'
  }

  /** On one moving axis the slab is occupied exactly between the two face crossings. */
  lemma SlabInterval(lo: real, hi: real, value: real, delta: real, first: real, second: real, s: real)
    requires delta != 0.0 && lo <= hi
    requires first * delta == lo - value && second * delta == hi - value
    ensures lo <= Reach(value, delta, s) <= hi <==> MinReal(first, second) <= s <= MaxReal(first, second)
  {
    if delta > 0.0 {
      ScaleOrder(first, s, delta);
      ScaleOrder(s, second, delta);
      ScaleOrder(first, second, delta);
    } else {
      ScaleOrder(s, first, delta);
      ScaleOrder(second, s, delta);
      ScaleOrder(second, first, delta);
    }
  }

  lemma ScaleOrder(a: real, b: real, k: real)
    requires k != 0.0
    ensures if k > 0.0 then a <= b <==> a * k <= b * k else a <= b <==> b * k <= a * k
  {
  }

  /** Axis `axis` is inside its slab at fraction s. */
  predicate AxisHit(b: Aabb, start: Vec3, d: Vec3, axis: nat, s: real)
    requires axis < 3
  {
    InSlab(b, axis, Reach(start.At(axis), d.At(axis), s))
  }

  /** The first `axes` axes are inside their slabs at fraction s. */
  predicate AxesHit(b: Aabb, start: Vec3, d: Vec3, axes: nat, s: real)
    requires axes <= 3
  {
    axes == 0 || (AxesHit(b, start, d, axes - 1, s) && AxisHit(b, start, d, axes - 1, s))
  }

  lemma AllAxesHit(b: Aabb, start: Vec3, d: Vec3, s: real)
    ensures AxesHit(b, start, d, 3, s) <==> Contains(b, start.Along(d, s))
  {
    assert AxesHit(b, start, d, 1, s) <==> AxisHit(b, start, d, 0, s);
    assert AxesHit(b, start, d, 2, s) <==> AxesHit(b, start, d, 1, s) && AxisHit(b, start, d, 1, s);
  }

  /**
   `ObstacleAABB.segment_intersection_fraction`.  The answer is exact for the
   displacement without its negligible components.
   */
  method SegmentIntersectionFraction(b: Box, start: Vec3, end: Vec3, tolerance: real)
    returns (r: Option<real>)
    requires tolerance >= 0.0
    ensures r.Some? <==> Meets(b, start, Swept(end.Minus(start), tolerance))
    ensures r.Some? ==> IsFirstHit(b, start, Swept(end.Minus(start), tolerance), r.value)
  {
    var direction := end.Minus(start);
    ghost var swept := Swept(direction, tolerance);
    var entry, exit := 0.0, 1.0;
    var axis := 0;
    while axis < 3
      invariant 0 <= axis <= 3
      invariant 0.0 <= entry <= exit <= 1.0
      invariant forall s | 0.0 <= s <= 1.0 :: AxesHit(b, start, swept, axis, s) <==> entry <= s <= exit
    {
      var delta := direction.At(axis);
      var lo, hi := b.lo.At(axis), b.hi.At(axis);
      var value := start.At(axis);
      if AbsReal(delta) <= tolerance {
        if value < lo || value > hi {
          MissedAxis(b, start, swept, axis);
          return None;
        }
        forall s ensures AxisHit(b, start, swept, axis, s) {}
      } else {
        var first := (lo - value) / delta;
        var second := (hi - value) / delta;
        MovingAxis(b, start, swept, axis, first, second);
        entry := MaxReal(entry, MinReal(first, second));
        exit := MinReal(exit, MaxReal(first, second));
        if entry > exit {
          MissedAxes(b, start, swept, axis);
          return None;
        }
      }
      axis := axis + 1;
    }
    forall s ensures HitsAt(b, start, swept, s) <==> entry <= s <= exit {
      AllAxesHit(b, start, swept, s);
    }
    assert HitsAt(b, start, swept, entry);
    return Some(MaxReal(0.0, entry));
  }

  lemma MovingAxis(b: Box, start: Vec3, d: Vec3, axis: nat, first: real, second: real)
    requires axis < 3 && d.At(axis) != 0.0
    requires first == (b.lo.At(axis) - start.At(axis)) / d.At(axis)
    requires second == (b.hi.At(axis) - start.At(axis)) / d.At(axis)
    ensures forall s :: AxisHit(b, start, d, axis, s) <==> MinReal(first, second) <= s <= MaxReal(first, second)
  {
    var value, delta := start.At(axis), d.At(axis);
    forall s ensures AxisHit(b, start, d, axis, s) <==> MinReal(first, second) <= s <= MaxReal(first, second) {
      SlabInterval(b.lo.At(axis), b.hi.At(axis), value, delta, first, second, s);
    }
  }

  lemma MissedAxis(b: Box, start: Vec3, d: Vec3, axis: nat)
    requires axis < 3 && d.At(axis) == 0.0 && !InSlab(b, axis, start.At(axis))
    ensures !Meets(b, start, d)
  {
    forall s ensures !HitsAt(b, start, d, s) {
      assert Reach(start.At(axis), d.At(axis), s) == start.At(axis);
    }
  }

  lemma MissedAxes(b: Box, start: Vec3, d: Vec3, axis: nat)
    requires axis < 3
    requires forall s | 0.0 <= s <= 1.0 :: !(AxesHit(b, start, d, axis, s) && AxisHit(b, start, d, axis, s))
    ensures !Meets(b, start, d)
  {
    forall s ensures !HitsAt(b, start, d, s) {
      AllAxesHit(b, start, d, s);
      assert AxesHit(b, start, d, 3, s) ==> AxesHit(b, start, d, 2, s) && AxesHit(b, start, d, 1, s)
                                            && AxesHit(b, start, d, 0, s);
    }
  }

  // -------------------------------------------- what the tolerance costs

  /** No component is dropped although it is not zero. */
  predicate NoNegligible(d: Vec3, tolerance: real) {
    Swept(d, tolerance) == d
  }

  /** The point found on the simplified sweep is within the tolerance of the box on every axis. */
  lemma HitWithinTolerance(b: Box, start: Vec3, d: Vec3, tolerance: real, s: real, axis: nat)
    requires tolerance >= 0.0 && axis < 3
    requires HitsAt(b, start, Swept(d, tolerance), s)
    ensures b.lo.At(axis) - tolerance <= start.Along(d, s).At(axis) <= b.hi.At(axis) + tolerance
  {
    DroppedDrift(start.At(axis), d.At(axis), tolerance, s);
    assert InSlab(b, axis, Reach(start.At(axis), Effective(d.At(axis), tolerance), s));
    assert start.Along(d, s).At(axis) == Reach(start.At(axis), d.At(axis), s);
  }

  lemma DroppedDrift(value: real, delta: real, tolerance: real, s: real)
    requires 0.0 <= s <= 1.0 && tolerance >= 0.0
    ensures AbsReal(Reach(value, delta, s) - Reach(value, Effective(delta, tolerance), s)) <= tolerance
  {
    FractionOf(delta, s);
  }

  lemma FractionOf(delta: real, s: real)
    requires 0.0 <= s <= 1.0
    ensures AbsReal(s * delta) <= AbsReal(delta)
  {
  }

  /**
   The slab test answers correctly for every box and every start exactly when
   the displacement has no nonzero component at or below the tolerance.
   */
  lemma SlabTestIsExactIff(d: Vec3, tolerance: real)
    requires tolerance >= 0.0
    ensures (forall b: Box, start :: Meets(b, start, Swept(d, tolerance)) <==> Meets(b, start, d))
            <==> NoNegligible(d, tolerance)
  {
    if !NoNegligible(d, tolerance) {
      var axis := if Swept(d, tolerance).x != d.x then 0 else if Swept(d, tolerance).y != d.y then 1 else 2;
      DroppedComponentIsMissed(d, tolerance, axis);
    }
  }

  /** A box ahead on the dropped axis is reached by the segment and missed by the test. */
  lemma DroppedComponentIsMissed(d: Vec3, tolerance: real, axis: nat)
    requires axis < 3 && d.At(axis) != 0.0 && Swept(d, tolerance).At(axis) == 0.0
    ensures exists b: Box, start :: Meets(b, start, d) && !Meets(b, start, Swept(d, tolerance))
  {
    var b, start := BoxAhead(d, tolerance, axis);
  }

  lemma BoxAhead(d: Vec3, tolerance: real, axis: nat) returns (b: Box, start: Vec3)
    requires axis < 3 && d.At(axis) != 0.0 && Swept(d, tolerance).At(axis) == 0.0
    ensures HitsAt(b, start, d, 1.0) && !Meets(b, start, Swept(d, tolerance))
  {
    start := Vec3(0.0, 0.0, 0.0);
    var reach := Vec3(AbsReal(d.x) + 1.0, AbsReal(d.y) + 1.0, AbsReal(d.z) + 1.0);
    var wide := Aabb(start.Minus(reach), start.Plus(reach));
    var near, far := d.At(axis) / 2.0, 2.0 * d.At(axis);
    var lo, hi := MinReal(near, far), MaxReal(near, far);
    b :=
      if axis == 0 then Aabb(wide.lo.(x := lo), wide.hi.(x := hi))
      else if axis == 1 then Aabb(wide.lo.(y := lo), wide.hi.(y := hi))
      else Aabb(wide.lo.(z := lo), wide.hi.(z := hi));
    assert HitsAt(b, start, d, 1.0);
    MissedAxis(b, start, Swept(d, tolerance), axis);
  }

  // ------------------------------------------------------ flight corridor

  datatype Corridor = Corridor(start: Vec3, end: Vec3, radius: real)

  /** `FlightCorridor`: the source refuses a negative radius. */
  type FlightCorridor = c: Corridor | c.radius >= 0.0
    witness Corridor(Vec3(0.0, 0.0, 0.0), Vec3(0.0, 0.0, 0.0), 0.0)

  function Displacement(c: Corridor): Vec3 { c.end.Minus(c.start) }

  function CubeAt(centre: Vec3, half: real): Aabb {
    Aabb(centre.Minus(Cube(half)), centre.Plus(Cube(half)))
  }

  predicate CubeHitsAt(c: Corridor, d: Vec3, b: Aabb, s: real) {
    0.0 <= s <= 1.0 && Overlap(b, CubeAt(c.start.Along(d, s), c.radius))
  }

  /** A cube of half-extent radius, carried along d from the start, touches the box. */
  ghost predicate CubeSweepMeets(c: Corridor, d: Vec3, b: Aabb) {
    exists s :: CubeHitsAt(c, d, b, s)
  }

  method CorridorIntersects(c: FlightCorridor, b: Box, tolerance: real) returns (hit: bool)
    requires tolerance >= 0.0
    ensures hit <==> CubeSweepMeets(c, Swept(Displacement(c), tolerance), b)
  {
    var grown := Expanded(b, Cube(c.radius)).value;
    var fraction := SegmentIntersectionFraction(grown, c.start, c.end, tolerance);
    hit := fraction.Some?;
    ghost var d := Swept(Displacement(c), tolerance);
    assert forall s :: HitsAt(grown, c.start, d, s) <==> CubeHitsAt(c, d, b, s);
  }

  function SquaredDistance(p: Vec3, q: Vec3): real {
    (p.x - q.x) * (p.x - q.x) + (p.y - q.y) * (p.y - q.y) + (p.z - q.z) * (p.z - q.z)
  }

  /** The cube test never misses an obstacle that the swept sphere touches. */
  lemma NeverMissesSphericalSweep(c: FlightCorridor, b: Box, s: real, q: Vec3, tolerance: real)
    requires NoNegligible(Displacement(c), tolerance)
    requires 0.0 <= s <= 1.0 && Contains(b, q)
    requires SquaredDistance(q, c.start.Along(Displacement(c), s)) <= c.radius * c.radius
    ensures CubeSweepMeets(c, Swept(Displacement(c), tolerance), b)
  {
    var p := c.start.Along(Displacement(c), s);
    SquareBound(q.x - p.x, q.y - p.y, q.z - p.z, c.radius);
    SquareBound(q.y - p.y, q.x - p.x, q.z - p.z, c.radius);
    SquareBound(q.z - p.z, q.x - p.x, q.y - p.y, c.radius);
    assert CubeHitsAt(c, Displacement(c), b, s);
  }

  /**
   For every corridor of this displacement and every obstacle the cube test
   catches what the swept sphere touches exactly when no component is dropped.
   */
  lemma NeverMissesIff(d: Vec3, tolerance: real)
    requires tolerance >= 0.0
    ensures (forall c: FlightCorridor, b: Box, s, q | Displacement(c) == d && SphereTouches(c, b, s, q) ::
               CubeSweepMeets(c, Swept(d, tolerance), b))
            <==> NoNegligible(d, tolerance)
  {
    if NoNegligible(d, tolerance) {
      forall c: FlightCorridor, b: Box, s, q | Displacement(c) == d && SphereTouches(c, b, s, q)
        ensures CubeSweepMeets(c, Swept(d, tolerance), b)
      {
        NeverMissesSphericalSweep(c, b, s, q, tolerance);
      }
    } else {
      var c, b := LineMissed(d, tolerance);
      assert SphereTouches(c, b, 1.0, c.start.Along(d, 1.0));
    }
  }

  /** At fraction s of the flight the sphere around the corridor touches the obstacle at q. */
  predicate SphereTouches(c: Corridor, b: Aabb, s: real, q: Vec3) {
    && 0.0 <= s <= 1.0 && Contains(b, q)
    && SquaredDistance(q, c.start.Along(Displacement(c), s)) <= c.radius * c.radius
  }

  /** A corridor without width that ends in an obstacle its test misses. */
  lemma LineMissed(d: Vec3, tolerance: real) returns (c: FlightCorridor, b: Box)
    requires tolerance >= 0.0 && !NoNegligible(d, tolerance)
    ensures Displacement(c) == d && c.radius == 0.0 && c.end == c.start.Along(d, 1.0) && Contains(b, c.end)
    ensures !CubeSweepMeets(c, Swept(d, tolerance), b)
  {
    var axis := if Swept(d, tolerance).x != d.x then 0 else if Swept(d, tolerance).y != d.y then 1 else 2;
    var start;
    b, start := BoxAhead(d, tolerance, axis);
    c := Corridor(start, start.Plus(d), 0.0);
    forall s ensures !CubeHitsAt(c, Swept(d, tolerance), b, s) {
      assert !HitsAt(b, start, Swept(d, tolerance), s);
    }
  }

  lemma SquareBound(a: real, b: real, c: real, r: real)
    requires r >= 0.0 && a * a + b * b + c * c <= r * r
    ensures -r <= a <= r
  {
    assert b * b >= 0.0 && c * c >= 0.0;
    if !(-r <= a <= r) {
      SquareGrows(AbsReal(a), r);
    }
  }

  lemma SquareGrows(a: real, r: real)
    requires a > r >= 0.0
    ensures a * a > r * r
  {
    ProductPositive(a - r, a + r);
    assert (a - r) * (a + r) == a * a - r * r;
  }

  lemma ProductPositive(a: real, b: real)
    requires a > 0.0 && b > 0.0
    ensures a * b > 0.0
  {
  }

  function Reversed(c: FlightCorridor): FlightCorridor { Corridor(c.end, c.start, c.radius) }

  /** Flying the corridor backwards meets the same obstacles. */
  lemma ReversalKeepsHits(c: FlightCorridor, b: Box, tolerance: real)
    requires NoNegligible(Displacement(c), tolerance)
    ensures CubeSweepMeets(c, Swept(Displacement(c), tolerance), b)
            <==> CubeSweepMeets(Reversed(c), Swept(Displacement(Reversed(c)), tolerance), b)
  {
    ReversalKeepsHit(c, b, tolerance);
    ReversalKeepsHit(Reversed(c), b, tolerance);
  }

  lemma ReversalKeepsHit(c: FlightCorridor, b: Box, tolerance: real)
    requires NoNegligible(Displacement(c), tolerance)
    requires NoNegligible(Displacement(Reversed(c)), tolerance)
    ensures CubeSweepMeets(c, Displacement(c), b) ==>
            CubeSweepMeets(Reversed(c), Displacement(Reversed(c)), b)
  {
    forall s | CubeHitsAt(c, Displacement(c), b, s)
      ensures CubeHitsAt(Reversed(c), Displacement(Reversed(c)), b, 1.0 - s)
    {
      SamePoint(c.start.x, c.end.x, s);
      SamePoint(c.start.y, c.end.y, s);
      SamePoint(c.start.z, c.end.z, s);
    }
  }

  /** For every corridor of this displacement the direction flown does not matter exactly when no component is dropped. */
  lemma ReversalKeepsHitsIff(d: Vec3, tolerance: real)
    requires tolerance >= 0.0
    ensures (forall c: FlightCorridor, b: Box | Displacement(c) == d ::
               CubeSweepMeets(c, Swept(d, tolerance), b)
               <==> CubeSweepMeets(Reversed(c), Swept(Displacement(Reversed(c)), tolerance), b))
            <==> NoNegligible(d, tolerance)
  {
    if NoNegligible(d, tolerance) {
      forall c: FlightCorridor, b: Box | Displacement(c) == d
        ensures CubeSweepMeets(c, Swept(d, tolerance), b)
                <==> CubeSweepMeets(Reversed(c), Swept(Displacement(Reversed(c)), tolerance), b)
      {
        ReversalKeepsHits(c, b, tolerance);
      }
    } else {
      var c, b := LineMissed(d, tolerance);
      var back := Swept(Displacement(Reversed(c)), tolerance);
      assert Reversed(c).start.Along(back, 0.0) == c.end;
      assert CubeHitsAt(Reversed(c), back, b, 0.0);
    }
  }

  lemma SamePoint(a: real, b: real, s: real)
    ensures Reach(a, b - a, s) == Reach(b, a - b, 1.0 - s)
  {
  }

  /** A wider corridor or a larger obstacle never turns a hit into a miss. */
  lemma HitsGrowWithRadiusAndBox(c: FlightCorridor, wider: FlightCorridor, b: Box, larger: Box, d: Vec3)
    requires wider.start == c.start && c.radius <= wider.radius && Within(b, larger)
    ensures CubeSweepMeets(c, d, b) ==> CubeSweepMeets(wider, d, larger)
  {
    forall s | CubeHitsAt(c, d, b, s) ensures CubeHitsAt(wider, d, larger, s) {}
  }
}
