/**
 * Sums and products of real numbers, and the two algebraic steps the weight proofs
 * rely on. Product facts are stated through `IsProduct` so that they are matched as a
 * whole rather than re-derived by arithmetic.
 */
module Reals {

  /** The sum of a sequence of reals. */
  function Sum(xs: seq<real>): real {
    if |xs| == 0 then 0.0 else xs[0] + Sum(xs[1..])
  }

  /** The product of a sequence of reals, folded from the left starting at 1. */
  function RealProduct(xs: seq<real>): real {
    if |xs| == 0 then 1.0 else RealProduct(xs[..|xs| - 1]) * xs[|xs| - 1]
  }

  /** `h` is the product `c * a`. */
  predicate IsProduct(h: real, c: real, a: real) {
    h == c * a
  }

  lemma RealProductLast(xs: seq<real>)
    requires |xs| > 0
    ensures IsProduct(RealProduct(xs), RealProduct(xs[..|xs| - 1]), xs[|xs| - 1])
  {
  }

  /** Distributivity where the two weights sum to 1: `c*a + c*b` is `c` when `a + b = 1`. */
  lemma Split(h: real, t: real, c: real, a: real, b: real)
    requires IsProduct(h, c, a) && IsProduct(t, c, b) && a + b == 1.0
    ensures h + t == c
  {
    assert h + t == c * (a + b);
  }

  /** Products of equal factors are equal. */
  lemma SameProduct(x: real, y: real, a: real, b: real, c: real, d: real)
    requires IsProduct(x, a, c) && IsProduct(y, b, d) && a == b && c == d
    ensures x == y
  {
  }

  /** Multiplying by a non-negative number keeps the order. */
  lemma MulMonotone(c: real, a: real, b: real)
    requires c >= 0.0 && a <= b
    ensures c * a <= c * b
  {
    assert c * (b - a) == c * b - c * a;
    assert (b - a) >= 0.0;
    NonNegProduct(c, b - a);
  }

  /** Multiplying by a positive number keeps the strict order. */
  lemma MulStrict(c: real, a: real, b: real)
    requires c > 0.0 && a < b
    ensures c * a < c * b
  {
    assert c * (b - a) == c * b - c * a;
    assert c * (b - a) > 0.0;
  }

  lemma NonNegProduct(x: real, y: real)
    requires x >= 0.0 && y >= 0.0
    ensures x * y >= 0.0
  {
  }

  /** A product of two numbers in [0, 1] lies in [0, 1]. */
  lemma UnitProduct(h: real, c: real, a: real)
    requires IsProduct(h, c, a) && 0.0 <= c <= 1.0 && 0.0 <= a <= 1.0
    ensures 0.0 <= h <= 1.0
  {
    NonNegProduct(c, a);
    MulMonotone(c, a, 1.0);
    Bounded(h, c * a, c * 1.0, c);
  }

  lemma Bounded(h: real, ca: real, c1: real, c: real)
    requires h == ca && 0.0 <= ca <= c1 && c1 == c && c <= 1.0
    ensures 0.0 <= h <= 1.0
  {
  }

  /** `x - h*floor(x/h)`, the remainder of `x` by a positive `h`, lies in [0, h). */
  lemma FloorRemainder(x: real, h: real)
    requires h > 0.0
    ensures 0.0 <= x - h * ((x / h).Floor as real) < h
  {
    var q := x / h;
    var f := q.Floor as real;
    var g := f + 1.0;
    assert h * q == x;
    assert f <= q < g;
    MulMonotone(h, f, q);
    MulStrict(h, q, g);
    assert h * g == h * f + h;
    Between(x, h, h * q, h * f, h * g);
  }

  lemma Between(x: real, h: real, hq: real, hf: real, hf1: real)
    requires hq == x && hf <= hq && hq < hf1 && hf1 == hf + h
    ensures 0.0 <= x - hf < h
  {
  }

  /** A number in [0, h) divided by a positive `h` lies in [0, 1). */
  lemma UnitQuotient(p: real, h: real)
    requires 0.0 <= p < h
    ensures 0.0 <= p / h < 1.0
  {
    var q := p / h;
    assert q * h == p;
    if q < 0.0 {
      MulStrict(h, q, 0.0);
    }
    if q >= 1.0 {
      MulMonotone(h, 1.0, q);
    }
  }
}
