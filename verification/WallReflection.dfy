/**
 Reference motion of a point that bounces between two walls: the closed form
 of the one-axis, obstacle-free behaviour of `MovingTarget._advance`
 (uav_agent/env/moving_target.py).
 */
module WallReflection {
  import opened Common
  import opened Arithmetic

  /** The triangle wave of period 2*(hi-lo): the unbounded coordinate folded into [lo, hi]. */
  function TriangleFold(lo: real, hi: real, y: real): (p: real)
    requires lo < hi
    ensures lo <= p <= hi
  {
    var q := Widths(y - lo, hi - lo);
    var r := y - lo - Multiple(q, hi - lo);
    if q % 2 == 0 then lo + r else hi - r
  }

  /** Distance already covered from the wall behind the moving point. */
  function Phase(lo: real, hi: real, p: real, v: real): real {
    if v > 0.0 then p - lo else hi - p
  }

  /** Number of wall contacts in time t, a contact at the final instant included. */
  function Contacts(lo: real, hi: real, p: real, v: real, t: real): int
    requires lo < hi
  {
    if v == 0.0 then 0 else Widths(Phase(lo, hi, p, v) + Product(AbsReal(v), t), hi - lo)
  }

  function FoldedPosition(lo: real, hi: real, p: real, v: real, t: real): real
    requires lo < hi
  {
    TriangleFold(lo, hi, p + Product(v, t))
  }

  /** The velocity changes sign once per contact. */
  function FoldedVelocity(lo: real, hi: real, p: real, v: real, t: real): real
    requires lo < hi
  {
    if Contacts(lo, hi, p, v, t) % 2 == 0 then v else -v
  }

  /**
   The state (p, v) reached from (p0, v0) after covering `travel` of unfolded
   distance and n reflections, as the event loop sees it.
   */
  predicate Unfolded(lo: real, hi: real, p0: real, v0: real, travel: real, p: real, v: real, n: nat) {
    && lo < hi
    && lo <= p <= hi
    && if v0 == 0.0 then p == p0 && v == 0.0 && n == 0
       else
         && v == (if n % 2 == 0 then v0 else -v0)
         && Phase(lo, hi, p, v) == Phase(lo, hi, p0, v0) + travel - Multiple(n, hi - lo)
  }

  /** No wall contact is outstanding: the point is not at the wall it is moving towards. */
  predicate Settled(lo: real, hi: real, p: real, v: real) {
    (v > 0.0 ==> p < hi) && (v < 0.0 ==> p > lo)
  }

  lemma NothingTravelled(lo: real, hi: real, p: real, v: real)
    requires lo < hi && lo <= p <= hi
    ensures Unfolded(lo, hi, p, v, Product(AbsReal(v), 0.0), p, v, 0)
  {
  }

  /** Free flight between two events. */
  lemma Drift(lo: real, hi: real, p0: real, v0: real, elapsed: real, p: real, v: real, n: nat, h: real)
    requires Unfolded(lo, hi, p0, v0, Product(AbsReal(v0), elapsed), p, v, n)
    requires lo <= p + Product(v, h) <= hi
    ensures Unfolded(lo, hi, p0, v0, Product(AbsReal(v0), elapsed + h), p + Product(v, h), v, n)
  {
    ProductSum(AbsReal(v0), elapsed, h);
    ProductSign(v, h);
    assert AbsReal(v) == AbsReal(v0);
  }

  /** A reflection at the wall ahead. */
  lemma Bounce(lo: real, hi: real, p0: real, v0: real, travel: real, p: real, v: real, n: nat)
    requires Unfolded(lo, hi, p0, v0, travel, p, v, n)
    requires v != 0.0 && p == (if v > 0.0 then hi else lo)
    ensures Unfolded(lo, hi, p0, v0, travel, p, -v, n + 1)
  {
    MultipleNext(n, hi - lo);
  }

  /** Once no wall contact is outstanding, the unfolded state is the closed form. */
  lemma ClosedForm(lo: real, hi: real, p0: real, v0: real, t: real, p: real, v: real, n: nat)
    requires Unfolded(lo, hi, p0, v0, Product(AbsReal(v0), t), p, v, n)
    requires lo <= p0 <= hi && Settled(lo, hi, p, v)
    ensures p == FoldedPosition(lo, hi, p0, v0, t)
    ensures v == FoldedVelocity(lo, hi, p0, v0, t)
    ensures n == Contacts(lo, hi, p0, v0, t)
  {
    ProductSign(v0, t);
    if v0 == 0.0 {
      FoldInside(lo, hi, p0);
    } else {
      WidthsUnique(Phase(lo, hi, p0, v0) + Product(AbsReal(v0), t), hi - lo, n);
      if v0 > 0.0 {
        ForwardFold(lo, hi, p0 + Product(v0, t), n, Phase(lo, hi, p, v));
      } else {
        BackwardFold(lo, hi, p0 + Product(v0, t), n, Phase(lo, hi, p, v));
      }
    }
  }

  lemma FoldInside(lo: real, hi: real, p: real)
    requires lo < hi && lo <= p <= hi
    ensures TriangleFold(lo, hi, p) == p
  {
    if p < hi {
      WidthsUnique(p - lo, hi - lo, 0);
    } else {
      WidthsUnique(p - lo, hi - lo, 1);
    }
  }

  lemma ForwardFold(lo: real, hi: real, y: real, n: int, off: real)
    requires lo < hi && 0.0 <= off < hi - lo && y - lo == off + Multiple(n, hi - lo)
    ensures TriangleFold(lo, hi, y) == if n % 2 == 0 then lo + off else hi - off
  {
    WidthsUnique(y - lo, hi - lo, n);
  }

  lemma BackwardFold(lo: real, hi: real, y: real, n: int, off: real)
    requires lo < hi && 0.0 <= off < hi - lo && y - lo == hi - lo - off - Multiple(n, hi - lo)
    ensures TriangleFold(lo, hi, y) == if n % 2 == 0 then hi - off else lo + off
  {
    MultipleNegated(n, hi - lo);
    MultipleNext(-n, hi - lo);
    WidthsUnique(y - lo, hi - lo, if off == 0.0 then 1 - n else -n);
  }

  /** The closed form is a state the event loop can stop in. */
  lemma FoldedStateSettled(lo: real, hi: real, p: real, v: real, t: real)
    requires lo < hi && lo <= p <= hi && t >= 0.0
    ensures Contacts(lo, hi, p, v, t) >= 0
    ensures Unfolded(lo, hi, p, v, Product(AbsReal(v), t), FoldedPosition(lo, hi, p, v, t),
                     FoldedVelocity(lo, hi, p, v, t), Contacts(lo, hi, p, v, t))
    ensures Settled(lo, hi, FoldedPosition(lo, hi, p, v, t), FoldedVelocity(lo, hi, p, v, t))
  {
    ProductSign(AbsReal(v), t);
    if v == 0.0 {
      FoldInside(lo, hi, p);
    } else {
      var total := Phase(lo, hi, p, v) + Product(AbsReal(v), t);
      var n := Widths(total, hi - lo);
      if n < 0 {
        MultipleOrder(n, 0, hi - lo);
      }
      var off := total - Multiple(n, hi - lo);
      var v' := if n % 2 == 0 then v else -v;
      var p' := if v' > 0.0 then lo + off else hi - off;
      ClosedForm(lo, hi, p, v, t, p', v', n);
    }
  }

  lemma UnfoldedJoins(lo: real, hi: real, p: real, v: real, a: real, b: real, p1: real, v1: real, n: nat,
                      p2: real, v2: real, m: nat)
    requires Unfolded(lo, hi, p, v, Product(AbsReal(v), a), p1, v1, n)
    requires Unfolded(lo, hi, p1, v1, Product(AbsReal(v1), b), p2, v2, m)
    ensures Unfolded(lo, hi, p, v, Product(AbsReal(v), a + b), p2, v2, n + m)
  {
    ProductSum(AbsReal(v), a, b);
    MultipleSum(n, m, hi - lo);
    assert AbsReal(v1) == AbsReal(v);
  }

  /** Moving for a and then for b is moving for a + b, in position, velocity and contacts. */
  lemma FoldComposes(lo: real, hi: real, p: real, v: real, a: real, b: real)
    requires lo < hi && lo <= p <= hi && a >= 0.0 && b >= 0.0
    ensures var p1 := FoldedPosition(lo, hi, p, v, a); var v1 := FoldedVelocity(lo, hi, p, v, a);
      && FoldedPosition(lo, hi, p1, v1, b) == FoldedPosition(lo, hi, p, v, a + b)
      && FoldedVelocity(lo, hi, p1, v1, b) == FoldedVelocity(lo, hi, p, v, a + b)
      && Contacts(lo, hi, p, v, a) + Contacts(lo, hi, p1, v1, b) == Contacts(lo, hi, p, v, a + b)
  {
    var p1, v1 := FoldedPosition(lo, hi, p, v, a), FoldedVelocity(lo, hi, p, v, a);
    FoldedStateSettled(lo, hi, p, v, a);
    FoldedStateSettled(lo, hi, p1, v1, b);
    var p2, v2 := FoldedPosition(lo, hi, p1, v1, b), FoldedVelocity(lo, hi, p1, v1, b);
    var n, m := Contacts(lo, hi, p, v, a), Contacts(lo, hi, p1, v1, b);
    UnfoldedJoins(lo, hi, p, v, a, b, p1, v1, n, p2, v2, m);
    ClosedForm(lo, hi, p, v, a + b, p2, v2, n + m);
  }
}
