/**
 The Wilson score interval of uav_agent/experiments/evaluator.py over exact
 reals.  The square root is a parameter known by its square.
 */
module Wilson {
  import opened Common
  import opened Arithmetic

  const Z_95 := 1.959963984540054

  datatype Interval = Refused | NoData | Interval(low: real, high: real)

  ghost predicate IsSquareRoot(sqrt: real -> real) {
    forall a {:trigger sqrt(a)} | a >= 0.0 :: sqrt(a) >= 0.0 && Product(sqrt(a), sqrt(a)) == a
  }

  /** z * z / n. */
  function Weight(z: real, n: real): (w: real)
    requires n > 0.0
    ensures w >= 0.0
  {
    SquareOverPositive(z, n);
    Product(z, z) / n
  }

  lemma SquareOverPositive(z: real, n: real)
    requires n > 0.0
    ensures Product(z, z) / n >= 0.0
  {
    var w := Product(z, z) / n;
    DivisionUndone(Product(z, z), n);
    ProductSign(AbsReal(z), AbsReal(z));
    assert Product(AbsReal(z), AbsReal(z)) == Product(z, z);
    ProductOrder(w, 0.0, n);
  }

  function Radicand(p: real, z: real, n: real): real
    requires n > 0.0
  {
    Product(p, 1.0 - p) / n + Product(z, z) / Product(Product(4.0, n), n)
  }

  /** The half width before the division by 1 + z*z/n. */
  function Spread(p: real, z: real, n: real, sqrt: real -> real): real
    requires n > 0.0
  {
    Product(z, sqrt(Radicand(p, z, n)))
  }

  function Proportion(k: int, n: int): real
    requires n != 0
  {
    k as real / n as real
  }

  function Low(k: int, n: int, z: real, sqrt: real -> real): real
    requires 0 <= k <= n && n > 0
  {
    var p, w := Proportion(k, n), Weight(z, n as real);
    (p + w / 2.0 - Spread(p, z, n as real, sqrt)) / (1.0 + w)
  }

  function High(k: int, n: int, z: real, sqrt: real -> real): real
    requires 0 <= k <= n && n > 0
  {
    var p, w := Proportion(k, n), Weight(z, n as real);
    (p + w / 2.0 + Spread(p, z, n as real, sqrt)) / (1.0 + w)
  }

  /** `wilson_score_interval_95`, for any z. */
  function ScoreInterval(k: int, n: int, z: real, sqrt: real -> real): Interval {
    if n < 0 || k < 0 || k > n then Refused
    else if n == 0 then NoData
    else Interval(MaxReal(0.0, Low(k, n, z, sqrt)), MinReal(1.0, High(k, n, z, sqrt)))
  }

  // ------------------------------------------------------------ the algebra

  /** h is the spread: its square, and hence the quadratic in u - (p + w/2). */
  predicate SpreadOf(p: real, w: real, h: real) {
    h >= 0.0 && Product(h, h) == Product(w, Product(p, 1.0 - p)) + Product(w, w) / 4.0
  }

  lemma SquareOrder(a: real, b: real)
    requires a >= 0.0 && b >= 0.0
    ensures Product(a, a) <= Product(b, b) ==> a <= b
  {
    if b < a {
      ProductOrder(b, a, a);
      if b > 0.0 {
        ProductOrder(b, a, b);
      }
    }
  }

  lemma SpreadBounds(p: real, w: real, h: real)
    requires 0.0 <= p <= 1.0 && w > 0.0 && SpreadOf(p, w, h)
    ensures h <= p + w / 2.0
    ensures h >= w / 2.0 - Product(p, w) && h >= Product(p, w) - w / 2.0
  {
    var q := Product(p, 1.0 - p);
    ProductSign(p, 1.0 - p);
    ProductSign(w, q);
    ProductSign(1.0 + w, Product(p, p));
    SquareAboveSpread(p, w);
    SquareOrder(h, p + w / 2.0);
    var d := w / 2.0 - Product(p, w);
    SquareBelowSpread(p, w);
    ProductSign(1.0 + w, Product(w, q));
    ProductSign(d, d);
    ProductSign(d, -d);
    assert Product(AbsReal(d), AbsReal(d)) == Product(d, d);
    SquareOrder(AbsReal(d), h);
  }

  lemma SquareAboveSpread(p: real, w: real)
    ensures Product(p + w / 2.0, p + w / 2.0) - (Product(w, Product(p, 1.0 - p)) + Product(w, w) / 4.0)
            == Product(1.0 + w, Product(p, p))
  {
  }

  lemma SquareBelowSpread(p: real, w: real)
    ensures Product(w, Product(p, 1.0 - p)) + Product(w, w) / 4.0
            - Product(w / 2.0 - Product(p, w), w / 2.0 - Product(p, w))
            == Product(1.0 + w, Product(w, Product(p, 1.0 - p)))
  {
  }

  /** The score equation (p - x)^2 = w*x*(1 - x), in u = (1 + w)*x, is (u - p - w/2)^2 = h^2. */
  lemma ScoreEquation(p: real, w: real, h: real, x: real, u: real)
    requires w > 0.0 && SpreadOf(p, w, h) && u == Product(1.0 + w, x)
    ensures Product(p - x, p - x) == Product(w, Product(x, 1.0 - x))
            <==> Product(u - p - w / 2.0, u - p - w / 2.0) == Product(h, h)
  {
    var gap := Product(p - x, p - x) - Product(w, Product(x, 1.0 - x));
    ScoreExpanded(p, w, x);
    SquareAboveSpread(p, w);
    assert Product(u - p - w / 2.0, u - p - w / 2.0) - Product(h, h) == Product(1.0 + w, gap);
    if gap > 0.0 {
      ProductOrder(0.0, gap, 1.0 + w);
    } else if gap < 0.0 {
      ProductOrder(gap, 0.0, 1.0 + w);
    }
  }

  lemma ScoreExpanded(p: real, w: real, x: real)
    ensures var u := Product(1.0 + w, x);
      Product(u - p - w / 2.0, u - p - w / 2.0)
        - (Product(p + w / 2.0, p + w / 2.0) - Product(1.0 + w, Product(p, p)))
      == Product(1.0 + w, Product(p - x, p - x) - Product(w, Product(x, 1.0 - x)))
  {
    var d, a := 1.0 + w, p + w / 2.0;
    var u := Product(d, x);
    SquareShifted(u, a);
    Regrouped(d, x, u);
    Regrouped(d, x, a);
    ScoreInner(p, w, x);
    ProductSum(d, Product(x, u) - 2.0 * Product(x, a), Product(p, p));
    ProductSum(d, Product(x, u), -2.0 * Product(x, a));
    ProductDoubled(d, -Product(x, a));
    ProductSign(Product(x, a), d);
  }

  lemma SquareShifted(u: real, a: real)
    ensures Product(u - a, u - a) == Product(u, u) - 2.0 * Product(u, a) + Product(a, a)
  {
  }

  lemma Regrouped(d: real, x: real, a: real)
    ensures Product(Product(d, x), a) == Product(d, Product(x, a))
  {
  }

  lemma ProductDoubled(d: real, a: real)
    ensures Product(d, 2.0 * a) == 2.0 * Product(d, a) && Product(d, -a) == -Product(d, a)
  {
  }

  lemma ScoreInner(p: real, w: real, x: real)
    ensures Product(x, Product(1.0 + w, x)) - 2.0 * Product(x, p + w / 2.0) + Product(p, p)
            == Product(p - x, p - x) - Product(w, Product(x, 1.0 - x))
  {
  }

  lemma SquaresEqual(a: real, b: real)
    ensures Product(a, a) == Product(b, b) <==> a == b || a == -b
  {
    assert Product(a, a) - Product(b, b) == Product(a - b, a + b);
    if a != b && a != -b {
      assert Product(a - b, a + b) != 0.0;
    }
  }

  // -------------------------------------------------------- the formula

  /** What the source's formula computes with: a spread in the sense of the algebra. */
  lemma FormulaSpread(p: real, z: real, n: real, sqrt: real -> real)
    requires IsSquareRoot(sqrt) && 0.0 <= p <= 1.0 && z > 0.0 && n > 0.0
    ensures Weight(z, n) > 0.0 && SpreadOf(p, Weight(z, n), Spread(p, z, n, sqrt))
  {
    var w, a, s := Weight(z, n), Product(p, 1.0 - p), Radicand(p, z, n);
    ProductOrder(0.0, z, z);
    ProductSign(p, 1.0 - p);
    RadicandScaled(a, Product(z, z), n);
    ProductSign(z, sqrt(s));
    assert Product(Product(z, sqrt(s)), Product(z, sqrt(s))) == Product(Product(z, z), Product(sqrt(s), sqrt(s)));
  }

  lemma RadicandScaled(a: real, zz: real, n: real)
    requires a >= 0.0 && zz > 0.0 && n > 0.0
    ensures Product(Product(4.0, n), n) > 0.0
    ensures var s := a / n + zz / Product(Product(4.0, n), n);
      var w := zz / n;
      s >= 0.0 && w > 0.0 && Product(zz, s) == Product(w, a) + Product(w, w) / 4.0
  {
    var r := 1.0 / n;
    DivisionUndone(1.0, n);
    Reciprocal(n);
    ByReciprocal(a, n, r);
    ByReciprocal(zz, n, r);
    ProductOrder(0.0, n, n);
    QuarterReciprocal(zz, n, r);
    var w := Product(zz, r);
    ProductOrder(0.0, zz, r);
    ProductSign(a, r);
    ProductSign(w, r);
    ProductSum(zz, Product(a, r), Product(w, r) / 4.0);
    assert Product(zz, Product(a, r)) == Product(w, a);
    Quartered(zz, w, r);
  }

  lemma Quartered(zz: real, w: real, r: real)
    requires w == Product(zz, r)
    ensures Product(zz, Product(w, r) / 4.0) == Product(w, w) / 4.0
  {
  }

  lemma Reciprocal(n: real)
    requires n > 0.0
    ensures 1.0 / n > 0.0 && Product(1.0 / n, n) == 1.0
  {
  }

  lemma ByReciprocal(a: real, n: real, r: real)
    requires n > 0.0 && Product(r, n) == 1.0
    ensures a / n == Product(a, r)
  {
    DivisionUndone(a, n);
    Cancel(a / n, Product(a, r), n);
    assert Product(Product(a, r), n) == Product(a, Product(r, n));
  }

  lemma Cancel(a: real, b: real, n: real)
    requires n > 0.0 && Product(a, n) == Product(b, n)
    ensures a == b
  {
    ProductOrder(a, b, n);
    ProductOrder(b, a, n);
  }

  lemma QuarterReciprocal(zz: real, n: real, r: real)
    requires n > 0.0 && Product(r, n) == 1.0
    ensures Product(Product(4.0, n), n) > 0.0
    ensures zz / Product(Product(4.0, n), n) == Product(Product(zz, r), r) / 4.0
  {
    ProductOrder(0.0, n, n);
    var m := Product(Product(4.0, n), n);
    var q := Product(r, r) / 4.0;
    assert m == 4.0 * Product(n, n);
    assert Product(q, m) == Product(Product(r, n), Product(r, n));
    ByReciprocal(zz, m, q);
    assert Product(zz, q) == Product(Product(zz, r), r) / 4.0;
  }

  lemma ProportionBounds(k: int, n: int)
    requires 0 <= k <= n && n > 0
    ensures 0.0 <= Proportion(k, n) <= 1.0
    ensures Proportion(n - k, n) == 1.0 - Proportion(k, n)
  {
    var r := 1.0 / n as real;
    Reciprocal(n as real);
    ByReciprocal(k as real, n as real, r);
    ByReciprocal((n - k) as real, n as real, r);
    ProductOrder(0.0, k as real, r);
    ProductOrder(k as real, n as real, r);
    ProductSum(r, k as real, (n - k) as real);
  }

  lemma Endpoints(k: int, n: int, z: real, sqrt: real -> real) returns (p: real, w: real, h: real)
    requires IsSquareRoot(sqrt) && z > 0.0 && 0 <= k <= n && n > 0
    ensures p == Proportion(k, n) && w == Weight(z, n as real) && h == Spread(p, z, n as real, sqrt)
    ensures 0.0 <= p <= 1.0 && w > 0.0 && SpreadOf(p, w, h)
    ensures Product(1.0 + w, Low(k, n, z, sqrt)) == p + w / 2.0 - h
    ensures Product(1.0 + w, High(k, n, z, sqrt)) == p + w / 2.0 + h
  {
    p, w := Proportion(k, n), Weight(z, n as real);
    h := Spread(p, z, n as real, sqrt);
    ProportionBounds(k, n);
    FormulaSpread(p, z, n as real, sqrt);
    DivisionUndone(p + w / 2.0 - h, 1.0 + w);
    DivisionUndone(p + w / 2.0 + h, 1.0 + w);
  }

  // ----------------------------------------------------------- main results

  lemma LowBelowProportion(k: int, n: int, z: real, sqrt: real -> real)
    requires IsSquareRoot(sqrt) && z > 0.0 && 0 <= k <= n && n > 0
    ensures 0.0 <= Low(k, n, z, sqrt) <= Proportion(k, n)
  {
    var p, w, h := Endpoints(k, n, z, sqrt);
    SpreadBounds(p, w, h);
    LowOrder(Low(k, n, z, sqrt), p, w, h);
  }

  lemma LowOrder(low: real, p: real, w: real, h: real)
    requires w > 0.0 && Product(1.0 + w, low) == p + w / 2.0 - h
    requires h <= p + w / 2.0 && h >= w / 2.0 - Product(p, w)
    ensures 0.0 <= low <= p
  {
    assert Product(1.0 + w, p) == p + Product(p, w) && Product(1.0 + w, 0.0) == 0.0;
    OrderByScale(0.0, low, 1.0 + w);
    OrderByScale(low, p, 1.0 + w);
  }

  /** The endpoints need no clamping: they bracket the proportion inside [0, 1]. */
  lemma Brackets(k: int, n: int, z: real, sqrt: real -> real)
    requires IsSquareRoot(sqrt) && z > 0.0 && 0 <= k <= n && n > 0
    ensures 0.0 <= Low(k, n, z, sqrt) <= Proportion(k, n) <= High(k, n, z, sqrt) <= 1.0
    ensures ScoreInterval(k, n, z, sqrt) == Interval(Low(k, n, z, sqrt), High(k, n, z, sqrt))
  {
    LowBelowProportion(k, n, z, sqrt);
    LowBelowProportion(n - k, n, z, sqrt);
    Mirror(k, n, z, sqrt);
    ProportionBounds(k, n);
  }

  lemma OrderByScale(a: real, b: real, d: real)
    requires d > 0.0 && Product(d, a) <= Product(d, b)
    ensures a <= b
  {
    if b < a {
      ProductOrder(b, a, d);
    }
  }

  /** The endpoints are exactly the solutions of (k/n - x)^2 = (z*z/n) * x * (1 - x). */
  lemma Roots(k: int, n: int, z: real, sqrt: real -> real, x: real)
    requires IsSquareRoot(sqrt) && z > 0.0 && 0 <= k <= n && n > 0
    ensures var p := Proportion(k, n);
      Product(p - x, p - x) == Product(Weight(z, n as real), Product(x, 1.0 - x))
      <==> x == Low(k, n, z, sqrt) || x == High(k, n, z, sqrt)
  {
    var low, high := Low(k, n, z, sqrt), High(k, n, z, sqrt);
    var p, w, h := Endpoints(k, n, z, sqrt);
    var u := Product(1.0 + w, x);
    ScoreEquation(p, w, h, x, u);
    SquaresEqual(u - p - w / 2.0, h);
    SameByScale(x, low, 1.0 + w);
    SameByScale(x, high, 1.0 + w);
  }

  lemma SameByScale(a: real, b: real, d: real)
    requires d > 0.0
    ensures Product(d, a) == Product(d, b) <==> a == b
  {
    if Product(d, a) == Product(d, b) {
      OrderByScale(a, b, d);
      OrderByScale(b, a, d);
    }
  }

  /** Exchanging successes and failures mirrors the interval about 1/2. */
  lemma Mirror(k: int, n: int, z: real, sqrt: real -> real)
    requires IsSquareRoot(sqrt) && z > 0.0 && 0 <= k <= n && n > 0
    ensures Low(n - k, n, z, sqrt) == 1.0 - High(k, n, z, sqrt)
    ensures High(n - k, n, z, sqrt) == 1.0 - Low(k, n, z, sqrt)
  {
    var p, w, h := Endpoints(k, n, z, sqrt);
    var p', w', h' := Endpoints(n - k, n, z, sqrt);
    ProportionBounds(k, n);
    assert Product(p', 1.0 - p') == Product(p, 1.0 - p);
    var d := 1.0 + w;
    ProductSum(d, 1.0 - High(k, n, z, sqrt), High(k, n, z, sqrt));
    ProductSum(d, 1.0 - Low(k, n, z, sqrt), Low(k, n, z, sqrt));
    assert Product(d, 1.0) == d;
    SameByScale(Low(n - k, n, z, sqrt), 1.0 - High(k, n, z, sqrt), d);
    SameByScale(High(n - k, n, z, sqrt), 1.0 - Low(k, n, z, sqrt), d);
  }

  /** The source's function: counts out of range are refused, no trials give no interval, and otherwise it brackets k/n. */
  function ScoreInterval95(k: int, n: int, sqrt: real -> real): Interval { ScoreInterval(k, n, Z_95, sqrt) }

  lemma IntervalAtNinetyFive(k: int, n: int, sqrt: real -> real)
    requires IsSquareRoot(sqrt)
    ensures ScoreInterval95(k, n, sqrt).Refused? <==> n < 0 || k < 0 || k > n
    ensures ScoreInterval95(k, n, sqrt).NoData? <==> n == 0 && k == 0
    ensures 0 <= k <= n && n > 0 ==>
      0.0 <= ScoreInterval95(k, n, sqrt).low <= Proportion(k, n) <= ScoreInterval95(k, n, sqrt).high <= 1.0
  {
    if 0 <= k <= n && n > 0 {
      Brackets(k, n, Z_95, sqrt);
    }
  }
}
