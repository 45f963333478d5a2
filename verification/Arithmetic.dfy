/**
 Real-arithmetic facts used by the motion models.  Products are wrapped in a
 function so that proofs about them stay linear.
 */
module Arithmetic {

  function Product(a: real, b: real): real { a * b }

  lemma ProductOrder(a: real, b: real, k: real)
    requires k > 0.0
    ensures a < b ==> Product(a, k) < Product(b, k)
    ensures a <= b ==> Product(a, k) <= Product(b, k)
  {
  }

  lemma ProductNext(a: real, k: real)
    ensures Product(a + 1.0, k) == Product(a, k) + k
  {
  }

  lemma ProductSum(k: real, a: real, b: real)
    ensures Product(k, a + b) == Product(k, a) + Product(k, b)
  {
  }

  lemma ProductSign(k: real, a: real)
    ensures Product(-k, a) == -Product(k, a)
    ensures k >= 0.0 && a >= 0.0 ==> Product(k, a) >= 0.0
  {
  }

  lemma DivisionUndone(a: real, k: real)
    requires k != 0.0
    ensures Product(a / k, k) == a
  {
  }

  // --------------------------------------------------- whole multiples

  function Multiple(n: int, width: real): real { Product(n as real, width) }

  lemma MultipleNext(n: int, width: real)
    ensures Multiple(n + 1, width) == Multiple(n, width) + width
  {
    ProductNext(n as real, width);
  }

  lemma MultipleSum(m: int, n: int, width: real)
    ensures Multiple(m + n, width) == Multiple(m, width) + Multiple(n, width)
  {
  }

  lemma MultipleNegated(n: int, width: real)
    ensures Multiple(-n, width) == -Multiple(n, width)
  {
  }

  lemma MultipleOrder(m: int, n: int, width: real)
    requires m < n && width > 0.0
    ensures Multiple(m, width) + width <= Multiple(n, width)
    decreases n - m
  {
    MultipleNext(m, width);
    if m + 1 < n {
      MultipleOrder(m + 1, n, width);
    }
  }

  /** How many whole widths fit below a; rounds down for negative a. */
  function Widths(a: real, width: real): (q: int)
    requires width > 0.0
    ensures Multiple(q, width) <= a < Multiple(q, width) + width
  {
    DivisionUndone(a, width);
    FloorBounds(a / width, width, (a / width).Floor as real);
    (a / width).Floor
  }

  lemma FloorBounds(x: real, width: real, r: real)
    requires width > 0.0 && r <= x < r + 1.0
    ensures Product(r, width) <= Product(x, width) < Product(r, width) + width
  {
    ProductOrder(r, x, width);
    ProductOrder(x, r + 1.0, width);
    ProductNext(r, width);
  }

  lemma WidthsUnique(a: real, width: real, q: int)
    requires width > 0.0 && Multiple(q, width) <= a < Multiple(q, width) + width
    ensures Widths(a, width) == q
  {
    var p := Widths(a, width);
    if p < q {
      MultipleOrder(p, q, width);
    } else if q < p {
      MultipleOrder(q, p, width);
    }
  }
}
